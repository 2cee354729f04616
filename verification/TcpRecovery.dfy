/** What one retransmission repairs, in every reachable state of the endpoint pair: a segment whose
    acknowledgement is outstanding is sent again, the peer answers, and exactly under the conditions
    proved here the sender's queue is empty afterwards. */
module TcpRecovery {
  import opened Wrappers
  import opened TcpTypes
  import opened TcpBlock
  import opened TcpPair

  // ---- what is in flight ----

  // Sequence numbers that a segment takes.
  function Length(m: Segment): nat {
    |m.payload| + (if m.flags.syn then 1 else 0) + (if m.flags.fin then 1 else 0)
  }

  // The position in the stream of x from which on nothing is acknowledged.
  function Acked(x: Endpoint): int {
    if x.tcb.slot.pkt.Some? then SendEnd(x) - Length(x.tcb.slot.pkt.value) else SendEnd(x)
  }

  predicate OfState(t: Tcb, m: Segment) {
    match t.state
    case SynSent => m == Segment(0, 0, SYN, [])
    case SynReceived => m == Segment(0, 1, SYN_ACK, [])
    case Established | CloseWait => !m.flags.syn && !m.flags.fin && |m.payload| > 0
    case _ => !m.flags.syn && m.flags.fin && m.payload == []
  }

  // The segment in the queue reaches from snd_una to the end of what was sent.
  ghost predicate QueueOk(x: Endpoint) {
    && x.tcb.sndUna == Acked(x)
    && (x.tcb.slot.pkt.Some? ==>
          && x.tcb.slot.pkt.value.seqNum == Acked(x) && x.tcb.slot.seqEnd == Low(SendEnd(x))
          && OfState(x.tcb, x.tcb.slot.pkt.value))
    && (Acked(x) == 0 ==> x.tcb.state.SynSent? || x.tcb.state.SynReceived?)
  }

  // All other data was acknowledged.
  ghost predicate WireFlight(x: Endpoint, wire: set<Segment>) {
    forall m <- wire :: |m.payload| > 0 ==> x.tcb.slot.pkt == Some(m) || m.seqNum + |m.payload| <= Acked(x)
  }

  // The peer has all of the segment in the queue or nothing of it, and has never acknowledged a part.
  ghost predicate PeerFlight(x: Endpoint, y: Endpoint, wire: set<Segment>) {
    && (ReceiveEnd(y) == Acked(x) || ReceiveEnd(y) == SendEnd(x))
    && forall m <- wire :: m.ackNum <= Acked(x) || m.ackNum == Low(SendEnd(x))
  }

  ghost predicate Flight(x: Endpoint, y: Endpoint, wireX: set<Segment>, wireY: set<Segment>) {
    x.tcb.valid ==> QueueOk(x) && WireFlight(x, wireX) && PeerFlight(x, y, wireY)
  }

  // ---- moves of the sender ----

  ghost predicate Untouched(t: Tcb, t1: Tcb) {
    && t1.valid && t1.slot == t.slot && t1.sndUna == t.sndUna
    && (t1.state == t.state || (t.state == Established && t1.state == CloseWait)
        || (t.state == FinWait2 && t1.state == TimeWait))
  }

  ghost predicate TookAck(t: Tcb, m: Segment, t1: Tcb) {
    && t1.valid && t.slot.pkt.Some? && t.sndUna < m.ackNum == t1.sndUna
    && t1.slot.pkt == (if m.ackNum >= t.slot.seqEnd then None else t.slot.pkt)
    && !t1.state.SynSent? && !t1.state.SynReceived?
  }

  // A segment leaves the send side alone, or acknowledges, or the block is released.
  lemma SendSideOf(t: Tcb, m: Segment, sendOk: bool)
    requires t.valid && (BlockInv(t) || Stuck(t)) && t.state != Established
    ensures var t1 := OnSegment(t, m, sendOk).tcb; t1 == ZERO_TCB || Untouched(t, t1) || TookAck(t, m, t1)
  {}

  lemma SendSideOfEstablished(t: Tcb, m: Segment, sendOk: bool)
    requires t.valid && (BlockInv(t) || Stuck(t)) && t.state == Established
    ensures var t1 := OnSegment(t, m, sendOk).tcb; Untouched(t, t1) || TookAck(t, m, t1)
  {
    var t1 := OnAck(t, m);
    assert t1 == t || TookAck(t, m, t1);
    assert Untouched(t1, OnEstablished(t1, m, sendOk).tcb);
  }

  lemma AnswersAreAcks(t: Tcb, m: Segment, sendOk: bool)
    requires t.valid
    ensures var r := OnSegment(t, m, sendOk);
            (r.out != [] ==> r.tcb.valid) && forall a <- r.out :: a.payload == [] && a.ackNum == r.tcb.rcvNxt
  {}

  lemma SamePast(e: Endpoint, r: Reaction)
    ensures var e1 := Absorb(e, r);
            && e1.tcb == r.tcb && SendEnd(e1) == SendEnd(e) && e1.incarnations == e.incarnations
            && e1.tuple == e.tuple
  {}

  // The acknowledgement of all that is in flight.
  lemma QueueEmptied(x: Endpoint, x1: Endpoint, y: Endpoint, wireX: set<Segment>, wireY: set<Segment>, m: Segment)
    requires QueueOk(x) && WireFlight(x, wireX) && PeerFlight(x, y, wireY)
    requires m in wireY && SentBy(y, m) && TookAck(x.tcb, m, x1.tcb) && SendEnd(x1) == SendEnd(x)
    requires x.incarnations == 1 && SendEnd(x) <= TWO32
    ensures QueueOk(x1) && WireFlight(x1, wireX) && PeerFlight(x1, y, wireY) && x1.tcb.slot.pkt.None?
  {
    assert m.ackNum == Low(SendEnd(x)) == SendEnd(x);
    assert x1.tcb.slot.pkt.None?;
    assert Acked(x1) == SendEnd(x);
    assert ReceiveEnd(y) == SendEnd(x);
  }

  lemma QueueSame(x: Endpoint, x1: Endpoint, y: Endpoint, wireX: set<Segment>, wireY: set<Segment>)
    requires QueueOk(x) && WireFlight(x, wireX) && PeerFlight(x, y, wireY)
    requires Untouched(x.tcb, x1.tcb) && SendEnd(x1) == SendEnd(x)
    requires x.tcb.state == FinWait2 ==> x.tcb.slot.pkt.None?
    ensures QueueOk(x1) && WireFlight(x1, wireX) && PeerFlight(x1, y, wireY)
  {}

  lemma NothingInFinWait2(x: Endpoint)
    requires LocalOk(x) && x.tcb.valid
    ensures x.tcb.state == FinWait2 ==> x.tcb.slot.pkt.None?
    ensures BlockInv(x.tcb) || Stuck(x.tcb)
    ensures SendEnd(x) <= TWO32
  {}

  lemma ReceivingKeepsFlight(x: Endpoint, y: Endpoint, wireX: set<Segment>, wireY: set<Segment>,
                             m: Segment, sendOk: bool)
    requires LocalOk(x) && x.incarnations == 1 && x.tcb.valid && Flight(x, y, wireX, wireY)
    requires m in wireY && SentBy(y, m)
    ensures var r := OnSegment(x.tcb, m, sendOk); Flight(Absorb(x, r), y, wireX + Elements(r.out), wireY)
  {
    hide OnSegment, LocalOk, QueueOk, PeerFlight, Untouched, TookAck, SentBy, SendEnd;
    var r := OnSegment(x.tcb, m, sendOk);
    var x1 := Absorb(x, r);
    NothingInFinWait2(x);
    SamePast(x, r);
    AnswersAreAcks(x.tcb, m, sendOk);
    if x.tcb.state == Established {
      SendSideOfEstablished(x.tcb, m, sendOk);
    } else {
      SendSideOf(x.tcb, m, sendOk);
    }
    if x1.tcb.valid {
      if Untouched(x.tcb, x1.tcb) {
        QueueSame(x, x1, y, wireX, wireY);
      } else {
        QueueEmptied(x, x1, y, wireX, wireY, m);
      }
    }
  }

  // A segment that opens, data, or a FIN goes out when nothing is in flight.
  lemma SendingKeepsFlight(x: Endpoint, y: Endpoint, wireX: set<Segment>, wireY: set<Segment>, x1: Endpoint, m: Segment)
    requires forall n <- wireX :: |n.payload| > 0 ==> n.seqNum + |n.payload| <= SendEnd(x)
    requires forall n <- wireY :: n.ackNum <= SendEnd(x)
    requires ReceiveEnd(y) == SendEnd(x)
    requires x1.tcb.valid && x1.tcb.slot.pkt == Some(m) && x1.tcb.slot.seqEnd == Low(SendEnd(x1))
    requires m.seqNum == x1.tcb.sndUna == SendEnd(x) && SendEnd(x1) == SendEnd(x) + Length(m)
    requires OfState(x1.tcb, m) && (SendEnd(x) == 0 ==> x1.tcb.state.SynSent? || x1.tcb.state.SynReceived?)
    ensures Flight(x1, y, wireX + {m}, wireY)
  {}

  // Before x opens, nothing of it is on the wire and the peer has nothing.
  lemma NothingBefore(x: Endpoint, y: Endpoint, wireX: set<Segment>, wireY: set<Segment>)
    requires EndsOk(x, y) && WireOk(x, wireX) && WireOk(y, wireY) && x.incarnations == 0
    ensures wireX == {} && ReceiveEnd(y) == 0 == SendEnd(x) && forall n <- wireY :: n.ackNum == 0
  {
    if n :| n in wireX {
      assert false;
    }
    forall n | n in wireY ensures n.ackNum == 0 { assert SentBy(y, n); }
  }

  // When nothing is in flight, the peer has everything.
  lemma EverythingArrived(x: Endpoint, y: Endpoint, wireX: set<Segment>, wireY: set<Segment>)
    requires Flight(x, y, wireX, wireY) && x.tcb.valid && x.tcb.slot.pkt.None? && WireOk(y, wireY)
    ensures forall n <- wireX :: |n.payload| > 0 ==> n.seqNum + |n.payload| <= SendEnd(x)
    ensures ReceiveEnd(y) == SendEnd(x) == x.tcb.sndUna && forall n <- wireY :: n.ackNum <= SendEnd(x)
  {
    forall n | n in wireY ensures n.ackNum <= SendEnd(x) { assert SentBy(y, n); }
  }

  lemma OpeningKeepsFlight(x: Endpoint, y: Endpoint, wireX: set<Segment>, wireY: set<Segment>, move: Move)
    requires EndsOk(x, y) && WireOk(x, wireX) && WireOk(y, wireY) && !x.tcb.valid && Possible(move, wireY)
    requires (move.Connect? || move.Receive?) && Act(x, move).end.incarnations <= 1
    ensures var t := Act(x, move); Flight(t.end, y, wireX + Elements(t.out), wireY)
  {
    var t := Act(x, move);
    if t.end.tcb.valid {
      assert x.incarnations == 0 && t.end.incarnations == 1;
      NothingBefore(x, y, wireX, wireY);
      if move.Receive? {
        assert SentBy(y, move.m);
      }
      assert Elements(t.out) == {t.out[0]};
      SendingKeepsFlight(x, y, wireX, wireY, t.end, t.out[0]);
    }
  }

  lemma AcceptingKeepsFlight(x: Endpoint, y: Endpoint, wireX: set<Segment>, wireY: set<Segment>,
                             data: seq<byte>, now: nat)
    requires LocalOk(x) && Flight(x, y, wireX, wireY) && WireOk(y, wireY)
    requires x.tcb.valid && x.tcb.state == Established && x.tcb.slot.pkt.None? && |data| > 0
    requires |x.accepted| + Min(|data|, TCP_MSS) < TWO32
    ensures var t := Act(x, SendData(data, now, true)); Flight(t.end, y, wireX + Elements(t.out), wireY)
  {
    SendOutcome(x.tcb, data, now);
    EverythingArrived(x, y, wireX, wireY);
    hide OnSend, Flight;
    var t := Act(x, SendData(data, now, true));
    assert Elements(t.out) == {t.out[0]};
    SendingKeepsFlight(x, y, wireX, wireY, t.end, t.out[0]);
  }

  lemma ClosingKeepsFlight(x: Endpoint, y: Endpoint, wireX: set<Segment>, wireY: set<Segment>, now: nat)
    requires LocalOk(x) && Flight(x, y, wireX, wireY) && WireOk(y, wireY) && |x.accepted| < TWO32
    requires x.tcb.valid && (x.tcb.state == Established || x.tcb.state == CloseWait) && x.tcb.slot.pkt.None?
    ensures var t := Act(x, CloseCall(now, true)); Flight(t.end, y, wireX + Elements(t.out), wireY)
  {
    CloseOutcome(x.tcb, now);
    EverythingArrived(x, y, wireX, wireY);
    hide OnClose, Flight;
    var t := Act(x, CloseCall(now, true));
    assert Elements(t.out) == {t.out[0]};
    SendingKeepsFlight(x, y, wireX, wireY, t.end, t.out[0]);
  }

  // Moves that send nothing new and leave the queue as it is.
  lemma NothingNew(x: Endpoint, x1: Endpoint, y: Endpoint, wireX: set<Segment>, wireY: set<Segment>, out: seq<Segment>)
    requires Flight(x, y, wireX, wireY) && (x1.tcb.valid ==> x.tcb.valid)
    requires x1.tcb.valid ==> x1 == x.(tcb := x1.tcb)
    requires x1.tcb.valid ==>
      x1.tcb == x.tcb.(slot := x.tcb.slot.(sentTs := x1.tcb.slot.sentTs, retransmits := x1.tcb.slot.retransmits))
    requires forall n <- out :: n in wireX
    ensures Flight(x1, y, wireX + Elements(out), wireY)
  {
    assert wireX + Elements(out) == wireX;
  }

  lemma MovingKeepsFlight(x: Endpoint, y: Endpoint, wireX: set<Segment>, wireY: set<Segment>, move: Move)
    requires EndsOk(x, y) && WireOk(x, wireX) && WireOk(y, wireY) && Flight(x, y, wireX, wireY)
    requires Possible(move, wireY)
    requires var x1 := Act(x, move).end; x1.incarnations <= 1 && |x1.accepted| < TWO32
    ensures var t := Act(x, move); Flight(t.end, y, wireX + Elements(t.out), wireY)
  {
    hide LocalOk, StreamOk, Flight, OnSegment, OnSend, OnClose;
    if x.tcb.valid {
      QueueIsEmpty(x);
      Opened(x);
    }
    match move
    case Connect(_, _) =>
      if x.tcb.valid { NothingNew(x, x, y, wireX, wireY, []); } else { OpeningKeepsFlight(x, y, wireX, wireY, move); }
    case Receive(m, _, _, sendOk) =>
      if x.tcb.valid { ReceivingKeepsFlight(x, y, wireX, wireY, m, sendOk); }
      else { OpeningKeepsFlight(x, y, wireX, wireY, move); }
    case SendData(data, now, sendOk) =>
      if Sends(x.tcb, data, sendOk) {
        SendOutcome(x.tcb, data, now);
        AcceptingKeepsFlight(x, y, wireX, wireY, data, now);
      }
      else {
        RefusedSend(x, data, now, sendOk);
        NothingNew(x, x, y, wireX, wireY, []);
      }
    case CloseCall(now, sendOk) =>
      if Closes(x.tcb, sendOk) { ClosingKeepsFlight(x, y, wireX, wireY, now); }
      else {
        RefusedClose(x, now, sendOk);
        NothingNew(x, x, y, wireX, wireY, []);
      }
    case Resend(_, _) | TimeWaitOver =>
      NothingNew(x, Act(x, move).end, y, wireX, wireY, Act(x, move).out);
  }

  lemma Opened(x: Endpoint)
    requires LocalOk(x) && x.tcb.valid && x.incarnations <= 1
    ensures x.incarnations == 1
  {}

  predicate Sends(t: Tcb, data: seq<byte>, sendOk: bool) {
    t.valid && t.state == Established && |data| > 0 && t.slot.pkt.None? && sendOk
  }

  predicate Closes(t: Tcb, sendOk: bool) {
    t.valid && (t.state == Established || t.state == CloseWait) && t.slot.pkt.None? && sendOk
  }

  lemma RefusedSend(x: Endpoint, data: seq<byte>, now: nat, sendOk: bool)
    requires !Sends(x.tcb, data, sendOk) && (x.tcb.valid && x.tcb.slot.pkt.Some? ==> HasUnacked(x.tcb))
    ensures Act(x, SendData(data, now, sendOk)) == Turn(x, [])
  {}

  lemma RefusedClose(x: Endpoint, now: nat, sendOk: bool)
    requires !Closes(x.tcb, sendOk) && (x.tcb.valid && x.tcb.slot.pkt.Some? ==> HasUnacked(x.tcb))
    ensures Act(x, CloseCall(now, sendOk)) == Turn(x, [])
  {}

  // ---- moves of the receiver ----

  // How far a move advances what y has of the stream: by the opening, by data or by a FIN of the peer that
  // stands where y expects it, or not at all.
  ghost predicate Advances(y: Endpoint, move: Move, y1: Endpoint) {
    || ReceiveEnd(y1) == ReceiveEnd(y)
    || (!y.synced && y1.synced && ReceiveEnd(y1) == 1)
    || (move.Receive? && y.tcb.valid && move.m.seqNum == y.tcb.rcvNxt && |move.m.payload| > 0
        && ReceiveEnd(y1) == ReceiveEnd(y) + |move.m.payload|)
    || (move.Receive? && y.tcb.valid && move.m.seqNum == y.tcb.rcvNxt && move.m.flags.fin
        && ReceiveEnd(y1) == ReceiveEnd(y) + 1)
  }

  lemma MoveAdvances(y: Endpoint, move: Move)
    requires LocalOk(y) && y.incarnations <= 1 && Act(y, move).end.incarnations <= 1
    ensures Advances(y, move, Act(y, move).end)
  {
    if y.tcb.valid && move.Receive? {
      SegmentAdvances(y, move.m, move.sendOk);
    }
  }

  lemma SegmentAdvances(y: Endpoint, m: Segment, sendOk: bool)
    requires LocalOk(y) && y.tcb.valid
    ensures var r := OnSegment(y.tcb, m, sendOk);
            match r.taken
            case Nothing => true
            case PeerSyn => !y.synced
            case Data(bytes, _) => y.synced && m.seqNum == y.tcb.rcvNxt && bytes == m.payload && |bytes| > 0
            case PeerFin => y.synced && m.seqNum == y.tcb.rcvNxt && m.flags.fin
  {}

  // What y sends acknowledges what it has now, or went out before, or acknowledges nothing.
  lemma SendsCurrentAck(y: Endpoint, move: Move)
    ensures var t := Act(y, move);
            && (t.out != [] ==> t.end.tcb.valid)
            && forall n <- t.out ::
                 n.ackNum == 0 || n.ackNum == t.end.tcb.rcvNxt || (y.tcb.valid && y.tcb.slot.pkt == Some(n))
  {
    hide OnSegment;
    if y.tcb.valid && move.Receive? {
      AnswersAreAcks(y.tcb, move.m, move.sendOk);
    }
  }

  // Data or a FIN of x that stands where y expects it is the segment in flight, and with it y has all.
  lemma ArrivesWhole(x: Endpoint, y: Endpoint, wireX: set<Segment>, m: Segment)
    requires LocalOk(x) && LocalOk(y) && QueueOk(x) && WireFlight(x, wireX) && x.tcb.valid && y.tcb.valid
    requires ReceiveEnd(y) == Acked(x) || ReceiveEnd(y) == SendEnd(x)
    requires m in wireX && SentBy(x, m) && m.seqNum == y.tcb.rcvNxt
    ensures |m.payload| > 0 ==> ReceiveEnd(y) + |m.payload| == SendEnd(x)
    ensures m.flags.fin ==> ReceiveEnd(y) + 1 == SendEnd(x)
  {
    assert m.seqNum == Low(ReceiveEnd(y));
  }

  lemma AcksSoFar(x: Endpoint, y: Endpoint, wireY: set<Segment>, t: Turn)
    requires QueueOk(x) && PeerFlight(x, y, wireY) && WireOk(y, wireY) && LocalOk(t.end)
    requires ReceiveEnd(t.end) == Acked(x) || ReceiveEnd(t.end) == SendEnd(x)
    requires t.out != [] ==> t.end.tcb.valid
    requires forall n <- t.out ::
      n.ackNum == 0 || n.ackNum == t.end.tcb.rcvNxt || (y.tcb.valid && y.tcb.slot.pkt == Some(n))
    ensures PeerFlight(x, t.end, wireY + Elements(t.out))
  {
    if t.out != [] {
      assert t.end.tcb.rcvNxt == Low(ReceiveEnd(t.end));
    }
  }

  lemma ReceiverKeepsFlight(x: Endpoint, y: Endpoint, wireX: set<Segment>, wireY: set<Segment>, move: Move)
    requires EndsOk(x, y) && WireOk(x, wireX) && WireOk(y, wireY) && Flight(x, y, wireX, wireY)
    requires Possible(move, wireX)
    requires var y1 := Act(y, move).end; y1.incarnations <= 1 && LocalOk(y1) && |y1.accepted| < TWO32
    ensures var t := Act(y, move); Flight(x, t.end, wireX, wireY + Elements(t.out))
  {
    hide Act, QueueOk, WireFlight, OnSegment;
    var t := Act(y, move);
    if x.tcb.valid {
      MoveAdvances(y, move);
      if move.Receive? && y.tcb.valid && move.m.seqNum == y.tcb.rcvNxt {
        ArrivesWhole(x, y, wireX, move.m);
      }
      NotYetOpened(x, y);
      assert ReceiveEnd(t.end) == Acked(x) || ReceiveEnd(t.end) == SendEnd(x);
      SendsCurrentAck(y, move);
      AcksSoFar(x, y, wireY, t);
    }
  }

  lemma NotYetOpened(x: Endpoint, y: Endpoint)
    requires EndsOk(x, y) && x.tcb.valid && QueueOk(x) && (ReceiveEnd(y) == Acked(x) || ReceiveEnd(y) == SendEnd(x))
    ensures !y.synced ==> SendEnd(x) == 1
  {}

  // ---- whole runs ----

  ghost predicate PairFlight(s: Pair) {
    Flight(s.a, s.b, s.wireA, s.wireB) && Flight(s.b, s.a, s.wireB, s.wireA)
  }

  lemma StepKeepsFlight(s: Pair, action: Action)
    requires Safe(s) && Clean(s) && Safe(Step(s, action)) && Clean(Step(s, action)) && PairFlight(s)
    ensures PairFlight(Step(s, action))
  {
    hide Flight, Act, LocalOk, StreamOk, WireOk;
    if action.side == A {
      if Possible(action.move, s.wireB) {
        MovingKeepsFlight(s.a, s.b, s.wireA, s.wireB, action.move);
        ReceiverKeepsFlight(s.b, s.a, s.wireB, s.wireA, action.move);
      }
    } else if Possible(action.move, s.wireA) {
      MovingKeepsFlight(s.b, s.a, s.wireB, s.wireA, action.move);
      ReceiverKeepsFlight(s.a, s.b, s.wireA, s.wireB, action.move);
    }
  }

  // In every state: the segment in the queue reaches from snd_una to the end of what was sent, the peer has
  // all of it or nothing, and everything sent before is acknowledged.
  lemma {:induction false} RunKeepsFlight(tuple: Tuple, actions: seq<Action>)
    requires Clean(Run(tuple, actions))
    ensures Safe(Run(tuple, actions)) && PairFlight(Run(tuple, actions))
  {
    hide Safe, PairFlight, Step;
    RunIsSafe(tuple, actions);
    if actions == [] {
      NothingInFlight(tuple);
    } else {
      var before, last := actions[..|actions| - 1], actions[|actions| - 1];
      StaysClean(Run(tuple, before), last);
      RunIsSafe(tuple, before);
      RunKeepsFlight(tuple, before);
      StepKeepsFlight(Run(tuple, before), last);
    }
  }

  lemma NothingInFlight(tuple: Tuple)
    ensures PairFlight(Run(tuple, []))
  {}

  lemma StaysClean(s: Pair, action: Action)
    requires Clean(Step(s, action))
    ensures Clean(s)
  {
    hide Act;
    MovesOnlyGrow(s.a, action.move);
    MovesOnlyGrow(s.b, action.move);
  }

  // ---- one retransmission ----

  function Other(side: Side): Side {
    if side == A then B else A
  }

  function End(s: Pair, side: Side): Endpoint {
    if side == A then s.a else s.b
  }

  function Wire(s: Pair, side: Side): set<Segment> {
    if side == A then s.wireA else s.wireB
  }

  // The pair after some actions, and what these sent.
  datatype Done = Done(pair: Pair, sent: seq<Segment>)

  function Do(s: Pair, action: Action): Done {
    Done(Step(s, action),
         if Possible(action.move, Wire(s, Other(action.side))) then Act(End(s, action.side), action.move).out else [])
  }

  // Segments arrive one after the other, and local sends work.
  function Deliver(s: Pair, to: Side, segments: seq<Segment>, now: nat): Done {
    if segments == [] then Done(s, [])
    else
      var before := Deliver(s, to, segments[..|segments| - 1], now);
      var last := Do(before.pair, Action(to, Receive(segments[|segments| - 1], now, true, true)));
      Done(last.pair, before.sent + last.sent)
  }

  // The retransmission timer of one side fires, the other side gets what this sends, and the answers come
  // back. A listener is ready.
  function Retransmission(s: Pair, side: Side, now: nat): Pair {
    var first := Do(s, Action(side, Resend(now, true)));
    var second := Deliver(first.pair, Other(side), first.sent, now);
    Deliver(second.pair, side, second.sent, now).pair
  }

  // When one retransmission by t gets its segment acknowledged by the peer p: a SYN while the peer has no
  // block, a SYN-ACK while the peer is in SYN_SENT, data while it is ESTABLISHED, and a FIN that the peer
  // still expects while it is ESTABLISHED or in FIN_WAIT_2; in all cases before sequence numbers wrapped.
  predicate Repairable(t: Tcb, p: Tcb) {
    && t.sndUna < t.sndNxt
    && match t.state
       case SynSent => !p.valid
       case SynReceived => p.valid && p.state == SynSent
       case Established | CloseWait => p.valid && p.state == Established
       case _ => p.valid && p.rcvNxt == t.sndUna && (p.state == Established || p.state == FinWait2)
  }

  function Resent(x: Endpoint, now: nat): Endpoint {
    x.(tcb := x.tcb.(slot := x.tcb.slot.(retransmits := x.tcb.slot.retransmits + 1, sentTs := now)))
  }

  function Got(m: Segment, now: nat): Move {
    Receive(m, now, true, true)
  }

  // The same, as two turns of the endpoints.
  function AfterAnswer(x: Endpoint, answers: seq<Segment>, now: nat): Endpoint {
    if answers == [] then x else Act(x, Got(answers[0], now)).end
  }

  lemma DeliverOne(s: Pair, to: Side, m: Segment, now: nat)
    requires m in Wire(s, Other(to))
    ensures var t := Act(End(s, to), Got(m, now)); var d := Deliver(s, to, [m], now);
            && d.sent == t.out && End(d.pair, to) == t.end && End(d.pair, Other(to)) == End(s, Other(to))
            && Wire(d.pair, to) == Wire(s, to) + Elements(t.out) && Wire(d.pair, Other(to)) == Wire(s, Other(to))
  {
    hide Act;
    assert [m][..0] == [] && Deliver(s, to, [], now) == Done(s, []);
  }

  lemma ResendTurn(s: Pair, side: Side, now: nat)
    requires var t := End(s, side).tcb; t.valid && HasUnacked(t) && t.slot.pkt.value in Wire(s, side)
    ensures var d, x := Do(s, Action(side, Resend(now, true))), End(s, side);
            && d.sent == [x.tcb.slot.pkt.value] && End(d.pair, side) == Resent(x, now)
            && End(d.pair, Other(side)) == End(s, Other(side))
            && Wire(d.pair, side) == Wire(s, side) && Wire(d.pair, Other(side)) == Wire(s, Other(side))
  {
    var x := End(s, side);
    assert Elements(Act(x, Resend(now, true)).out) <= Wire(s, side);
  }

  lemma AtMostOneAnswer(y: Endpoint, m: Segment, now: nat)
    ensures |Act(y, Got(m, now)).out| <= 1
  {}

  lemma RetransmissionTurns(s: Pair, side: Side, now: nat)
    requires var t := End(s, side).tcb; t.valid && HasUnacked(t) && t.slot.pkt.value in Wire(s, side)
    ensures var x, y, r := End(s, side), End(s, Other(side)), Retransmission(s, side, now);
            var t := Act(y, Got(x.tcb.slot.pkt.value, now));
            && End(r, side) == AfterAnswer(Resent(x, now), t.out, now)
            && End(r, Other(side)) == t.end
  {
    hide Act, Do, Deliver;
    var m := End(s, side).tcb.slot.pkt.value;
    ResendTurn(s, side, now);
    var first := Do(s, Action(side, Resend(now, true)));
    DeliverOne(first.pair, Other(side), m, now);
    var second := Deliver(first.pair, Other(side), [m], now);
    AtMostOneAnswer(End(s, Other(side)), m, now);
    if second.sent == [] {
      DeliverNone(second.pair, side, now);
    } else {
      assert second.sent == [second.sent[0]];
      DeliverOne(second.pair, side, second.sent[0], now);
    }
  }

  lemma DeliverNone(s: Pair, to: Side, now: nat)
    ensures Deliver(s, to, [], now) == Done(s, [])
  {}

  lemma DataIsAnswered(y: Endpoint, m: Segment, now: nat)
    requires !m.flags.syn && !m.flags.fin && |m.payload| > 0
    ensures var t := Act(y, Got(m, now));
            if y.tcb.valid && y.tcb.state == Established
            then t.out == [PureAck(t.end.tcb)] && t.end.tcb.valid && t.end.missed == y.missed
            else t.out == []
  {}

  lemma FinIsAnswered(y: Endpoint, m: Segment, now: nat)
    requires !m.flags.syn && m.flags.fin && m.payload == []
    ensures var t := Act(y, Got(m, now));
            if y.tcb.valid && m.seqNum == y.tcb.rcvNxt && (y.tcb.state == Established || y.tcb.state == FinWait2)
            then t.out == [PureAck(t.end.tcb)] && t.end.tcb.valid && t.end.tcb.rcvNxt == Add32(m.seqNum, 1)
            else t.out == []
  {}

  lemma OpeningIsAnswered(y: Endpoint, m: Segment, now: nat)
    requires LocalOk(y)
    requires m == Segment(0, 0, SYN, []) || m == Segment(0, 1, SYN_ACK, [])
    ensures var t := Act(y, Got(m, now));
            if m.flags == SYN && !y.tcb.valid then t.out == [Segment(0, 1, SYN_ACK, [])]
            else if m.flags == SYN_ACK && y.tcb.valid && y.tcb.state == SynSent then t.out == [Segment(1, 1, ACK, [])]
            else t.out == []
  {}

  // What an acknowledgement of everything does to the sender: it empties the queue unless numbers wrapped.
  lemma AckEmpties(x: Endpoint, a: Segment, now: nat)
    requires QueueOk(x) && LocalOk(x) && x.tcb.valid && x.tcb.slot.pkt.Some?
    requires x.tcb.state == Established || x.tcb.state == FinWait1 || x.tcb.state == LastAck
    requires a.flags == ACK && a.payload == [] && a.ackNum == Low(SendEnd(x))
    ensures var x1 := Act(x, Got(a, now)).end;
            && (x1.tcb.slot.pkt.None? <==> x.tcb.sndUna < x.tcb.sndNxt)
            && (x.tcb.sndUna >= x.tcb.sndNxt ==> x1 == x)
            && (x.tcb.state == Established && x.tcb.sndUna < x.tcb.sndNxt ==> Ready(x, x1))
  {}

  // The sender with an empty queue.
  ghost predicate Ready(x: Endpoint, x1: Endpoint) {
    && x1.accepted == x.accepted && x1.tcb.valid && x1.tcb.state == Established
    && x1.tcb.sndUna == x1.tcb.sndNxt == x.tcb.sndNxt && x1.tcb.slot.pkt.None? && x1.tcb.sendqCount == 0
  }

  lemma OpeningCompletes(x: Endpoint, now: nat)
    requires LocalOk(x) && x.tcb.valid
    ensures x.tcb.state == SynSent ==> Act(x, Got(Segment(0, 1, SYN_ACK, []), now)).end.tcb.slot.pkt.None?
    ensures x.tcb.state == SynReceived ==> Act(x, Got(Segment(1, 1, ACK, []), now)).end.tcb.slot.pkt.None?
  {}

  // With the segment in the queue an ESTABLISHED peer has everything, whether or not it had it before.
  lemma DataIsTaken(x: Endpoint, y: Endpoint, m: Segment, now: nat)
    requires LocalOk(x) && LocalOk(y) && QueueOk(x) && x.tcb.valid && x.tcb.slot.pkt == Some(m)
    requires x.tcb.state == Established || x.tcb.state == CloseWait
    requires y.tcb.valid && y.tcb.state == Established
    requires ReceiveEnd(y) == Acked(x) || ReceiveEnd(y) == SendEnd(x)
    ensures var y1 := Act(y, Got(m, now)).end; ReceiveEnd(y1) == SendEnd(x) && y1.tcb.rcvNxt == Low(SendEnd(x))
  {}

  // Only an ESTABLISHED peer of an ESTABLISHED sender answers data.
  lemma PeerHasNotClosed(x: Endpoint, y: Endpoint)
    requires EndsOk(x, y) && x.tcb.valid && y.tcb.valid && y.tcb.state == Established
    ensures x.tcb.state != CloseWait
  {}

  ghost predicate InFlight(x: Endpoint, y: Endpoint, m: Segment) {
    && EndsOk(x, y) && x.tcb.valid && x.tcb.slot.pkt == Some(m) && QueueOk(x)
    && (ReceiveEnd(y) == Acked(x) || ReceiveEnd(y) == SendEnd(x))
  }

  lemma DataRepairedIff(x: Endpoint, y: Endpoint, m: Segment, now: nat)
    requires InFlight(x, y, m) && (x.tcb.state == Established || x.tcb.state == CloseWait)
    ensures var x1 := AfterAnswer(x, Act(y, Got(m, now)).out, now);
            x1.tcb.slot.pkt.None? <==> Repairable(x.tcb, y.tcb)
  {
    hide Act, LocalOk, StreamOk, ReceiveEnd;
    var t := Act(y, Got(m, now));
    DataIsAnswered(y, m, now);
    if y.tcb.valid && y.tcb.state == Established {
      DataIsTaken(x, y, m, now);
      PeerHasNotClosed(x, y);
      AckEmpties(x, t.out[0], now);
    }
  }

  lemma FinRepairedIff(x: Endpoint, y: Endpoint, m: Segment, now: nat)
    requires InFlight(x, y, m) && (x.tcb.state == FinWait1 || x.tcb.state == LastAck)
    ensures var x1 := AfterAnswer(x, Act(y, Got(m, now)).out, now);
            x1.tcb.slot.pkt.None? <==> Repairable(x.tcb, y.tcb)
  {
    hide Act, LocalOk, StreamOk, ReceiveEnd, SendEnd;
    var t := Act(y, Got(m, now));
    FinIsAnswered(y, m, now);
    EndOfFin(x, m);
    if t.out != [] {
      AckEmpties(x, t.out[0], now);
    }
  }

  lemma EndOfFin(x: Endpoint, m: Segment)
    requires LocalOk(x) && QueueOk(x) && x.tcb.valid && x.tcb.slot.pkt == Some(m)
    requires x.tcb.state == FinWait1 || x.tcb.state == LastAck
    ensures m.seqNum == x.tcb.sndUna && Add32(m.seqNum, 1) == Low(SendEnd(x))
  {}

  lemma OpeningRepairedIff(x: Endpoint, y: Endpoint, m: Segment, now: nat)
    requires InFlight(x, y, m) && (x.tcb.state == SynSent || x.tcb.state == SynReceived)
    ensures var x1 := AfterAnswer(x, Act(y, Got(m, now)).out, now);
            x1.tcb.slot.pkt.None? <==> Repairable(x.tcb, y.tcb)
  {
    hide Act, StreamOk, ReceiveEnd, SendEnd;
    OpeningIsAnswered(y, m, now);
    OpeningCompletes(x, now);
    OpeningNumbers(x);
  }

  lemma OpeningNumbers(x: Endpoint)
    requires LocalOk(x) && x.tcb.valid && (x.tcb.state == SynSent || x.tcb.state == SynReceived)
    ensures x.tcb.sndUna == 0 && x.tcb.sndNxt == 1
  {}

  lemma TurnsRepairIff(x: Endpoint, y: Endpoint, m: Segment, now: nat)
    requires InFlight(x, y, m)
    ensures var x1 := AfterAnswer(x, Act(y, Got(m, now)).out, now);
            x1.tcb.slot.pkt.None? <==> Repairable(x.tcb, y.tcb)
  {
    hide Act, StreamOk, ReceiveEnd, SendEnd, AfterAnswer;
    match x.tcb.state
    case SynSent | SynReceived => OpeningRepairedIff(x, y, m, now);
    case Established | CloseWait => DataRepairedIff(x, y, m, now);
    case _ =>
      OnlyFinLeft(x);
      FinRepairedIff(x, y, m, now);
  }

  lemma OnlyFinLeft(x: Endpoint)
    requires LocalOk(x) && x.tcb.valid && x.tcb.slot.pkt.Some?
    ensures x.tcb.state.SynSent? || x.tcb.state.SynReceived? || x.tcb.state.Established? || x.tcb.state.CloseWait?
            || x.tcb.state.FinWait1? || x.tcb.state.LastAck?
  {}

  lemma ResentInFlight(x: Endpoint, y: Endpoint, wireX: set<Segment>, wireY: set<Segment>, now: nat)
    requires EndsOk(x, y) && Flight(x, y, wireX, wireY) && x.tcb.valid && HasUnacked(x.tcb)
    ensures InFlight(Resent(x, now), y, x.tcb.slot.pkt.value)
  {
    SameQueue(x.tcb, Resent(x, now).tcb);
    hide BlockInv, Stuck;
  }

  // One side of a clean run and its peer.
  lemma SideOfRun(tuple: Tuple, actions: seq<Action>, side: Side)
    requires Clean(Run(tuple, actions))
    ensures var s := Run(tuple, actions);
            && EndsOk(End(s, side), End(s, Other(side)))
            && WireOk(End(s, side), Wire(s, side)) && WireOk(End(s, Other(side)), Wire(s, Other(side)))
            && Flight(End(s, side), End(s, Other(side)), Wire(s, side), Wire(s, Other(side)))
  {
    RunKeepsFlight(tuple, actions);
  }

  // What one retransmission repairs. In every state of every clean run, when one side sends the segment in
  // its queue again, the other side gets it and the answer comes back, the segment is acknowledged if and
  // only if the two blocks are as Repairable says: whatever was lost before, and whether or not the peer
  // had taken the segment already.
  lemma RetransmissionRepairsIff(tuple: Tuple, actions: seq<Action>, side: Side, now: nat)
    requires Clean(Run(tuple, actions))
    requires var t := End(Run(tuple, actions), side).tcb; t.valid && HasUnacked(t)
    ensures var s := Run(tuple, actions);
            End(Retransmission(s, side, now), side).tcb.slot.pkt.None?
            <==> Repairable(End(s, side).tcb, End(s, Other(side)).tcb)
  {
    hide Act, Run, Retransmission, EndsOk, Flight, InFlight, AfterAnswer;
    var s := Run(tuple, actions);
    SideOfRun(tuple, actions, side);
    var x, y := End(s, side), End(s, Other(side));
    RetransmissionTurns(s, side, now);
    ResentInFlight(x, y, Wire(s, side), Wire(s, Other(side)), now);
    TurnsRepairIff(Resent(x, now), y, x.tcb.slot.pkt.value, now);
  }

  // Everything x ever accepted has arrived at y, and x has nothing in flight.
  ghost predicate AllArrived(x: Endpoint, y: Endpoint, x1: Endpoint, y1: Endpoint) {
    && y1.consumed == x.accepted == x1.accepted
    && (y.missed == 0 ==> y1.delivered == x.accepted)
    && x1.tcb.valid && x1.tcb.state == Established && x1.tcb.sndUna == x1.tcb.sndNxt == x.tcb.sndNxt
  }

  lemma AllConsumed(x: Endpoint, y1: Endpoint)
    requires LocalOk(x) && LocalOk(y1) && StreamOk(x, y1) && x.tcb.valid && x.tcb.state == Established
    requires ReceiveEnd(y1) == SendEnd(x) && x.incarnations == 1
    ensures y1.consumed == x.accepted && (y1.missed == 0 ==> y1.delivered == x.accepted)
  {}

  lemma DataTurns(x: Endpoint, y: Endpoint, wireX: set<Segment>, wireY: set<Segment>, m: Segment, now: nat)
    requires InFlight(x, y, m) && x.tcb.state == Established && x.tcb.sndUna < x.tcb.sndNxt
    requires y.tcb.valid && y.tcb.state == Established && |y.accepted| < TWO32
    requires WireOk(x, wireX) && WireOk(y, wireY)
    ensures var t := Act(y, Got(m, now)); AllArrived(x, y, AfterAnswer(x, t.out, now), t.end)
    ensures Ready(x, AfterAnswer(x, Act(y, Got(m, now)).out, now))
  {
    hide Act, LocalOk, StreamOk, ReceiveEnd, SendEnd;
    var t := Act(y, Got(m, now));
    DataIsAnswered(y, m, now);
    DataIsTaken(x, y, m, now);
    AckEmpties(x, t.out[0], now);
    SamePeer(y, Got(m, now));
    Opened(x);
    MoveKeepsEnds(y, x, Got(m, now));
    AllConsumed(x, t.end);
  }

  lemma SamePeer(y: Endpoint, move: Move)
    requires move.Receive? && y.tcb.valid
    ensures var y1 := Act(y, move).end; y1.incarnations == y.incarnations && y1.accepted == y.accepted
  {
    AbsorbHandsOnly(y, OnSegment(y.tcb, move.m, move.sendOk));
    hide OnSegment;
  }

  lemma AbsorbHandsOnly(e: Endpoint, r: Reaction)
    ensures Absorb(e, r).incarnations == e.incarnations && Absorb(e, r).accepted == e.accepted
  {}

  lemma NextSend(x1: Endpoint, data: seq<byte>, now: nat)
    requires x1.tcb.valid && x1.tcb.state == Established && x1.tcb.slot.pkt.None? && x1.tcb.sendqCount == 0
    requires data != []
    ensures Act(x1, SendData(data, now, true)).end.accepted == x1.accepted + data[..Min(|data|, 1460)]
  {
    SendOutcome(x1.tcb, data, now);
  }

  // Between two ESTABLISHED sides, before numbers wrap, one retransmission brings over everything that was
  // accepted, and the sender takes the next tcp_send again.
  lemma DataIsRepaired(tuple: Tuple, actions: seq<Action>, side: Side, now: nat, data: seq<byte>)
    requires Clean(Run(tuple, actions)) && data != []
    requires var t := End(Run(tuple, actions), side).tcb;
             t.valid && t.state == Established && HasUnacked(t) && t.sndUna < t.sndNxt
    requires var p := End(Run(tuple, actions), Other(side)).tcb; p.valid && p.state == Established
    ensures var s := Run(tuple, actions); var r := Retransmission(s, side, now);
            AllArrived(End(s, side), End(s, Other(side)), End(r, side), End(r, Other(side)))
    ensures var x1 := End(Retransmission(Run(tuple, actions), side, now), side);
            Act(x1, SendData(data, now, true)).end.accepted == x1.accepted + data[..Min(|data|, 1460)]
  {
    hide Act, Run, Retransmission, EndsOk, Flight, InFlight, AfterAnswer;
    var s := Run(tuple, actions);
    SideOfRun(tuple, actions, side);
    var x, y := End(s, side), End(s, Other(side));
    RetransmissionTurns(s, side, now);
    ResentInFlight(x, y, Wire(s, side), Wire(s, Other(side)), now);
    assert WireOk(Resent(x, now), Wire(s, side));
    DataTurns(Resent(x, now), y, Wire(s, side), Wire(s, Other(side)), x.tcb.slot.pkt.value, now);
    NextSend(End(Retransmission(s, side, now), side), data, now);
  }
}
