/** One control block: the reaction of src/protocols/tcp.c to every segment and every call.
    These functions are the specification of the methods in TcpTable.dfy. */
module TcpBlock {
  import opened Wrappers
  import opened TcpTypes

  // ---- send queue ----

  predicate HasUnacked(t: Tcb) {
    t.slot.pkt.Some? && !t.slot.acked
  }

  function Track(t: Tcb, clone: Segment, start: u32, end: u32, now: nat): Option<Tcb> {
    if t.sendqCount >= TCP_MAX_INFLIGHT || t.slot.pkt.Some? then None
    else Some(t.(slot := Slot(Some(clone), start, end, clone.flags, now, 0, false),
                 sendqCount := t.sendqCount + 1))
  }

  function AckQueue(t: Tcb, ack: u32): Tcb {
    if t.slot.pkt.Some? && ack >= t.slot.seqEnd
    then t.(slot := t.slot.(pkt := None, acked := true), sendqCount := t.sendqCount - 1)
    else t
  }

  predicate FinStillUnacked(t: Tcb) {
    t.slot.pkt.Some? && t.slot.flags.fin
  }

  // ---- opening ----

  function PureAck(t: Tcb): Segment {
    Segment(t.sndNxt, t.rcvNxt, ACK, [])
  }

  // tcp_connect after the table lookup; None when the call fails and the slot is released again.
  function OpenActive(tuple: Tuple, now: nat, sendOk: bool): Option<(Tcb, Segment)> {
    var syn := Segment(0, 0, SYN, []);
    var t := Tcb(true, tuple, SynSent, 0, 1, 0, FREE_SLOT, 0);
    match if sendOk then Track(t, syn, 0, 1, now) else None
    case Some(tracked) => Some((tracked, syn))
    case None => None
  }

  // The child that a listener creates for a SYN; None when the call fails.
  function OpenPassive(tuple: Tuple, seqNum: u32, now: nat, sendOk: bool): Option<(Tcb, Segment)> {
    var synAck := Segment(0, Add32(seqNum, 1), SYN_ACK, []);
    var t := Tcb(true, tuple, SynReceived, 0, 1, Add32(seqNum, 1), FREE_SLOT, 0);
    match if sendOk then Track(t, synAck, 0, 1, now) else None
    case Some(tracked) => Some((tracked, synAck))
    case None => None
  }

  // ---- receiving ----

  function Drop(t: Tcb): Reaction {
    Reaction(t, [], Nothing, false, Dropped)
  }

  function Swallow(t: Tcb): Reaction {
    Reaction(t, [], Nothing, false, Consumed)
  }

  // A block that answers with a pure ACK; the answer is lost when the local send fails.
  function Answer(t: Tcb, taken: Taken, sendOk: bool): Reaction {
    if sendOk then Reaction(t, [PureAck(t)], taken, false, Consumed)
    else Reaction(t, [], taken, false, Errored)
  }

  function OnSegment(t: Tcb, m: Segment, sendOk: bool): Reaction {
    match t.state
    case SynSent =>
      if m.flags.syn && m.flags.ack && m.ackNum == t.sndNxt then
        var t1 := AckQueue(t.(rcvNxt := Add32(m.seqNum, 1), sndUna := m.ackNum), m.ackNum);
        Answer(t1.(state := Established), PeerSyn, sendOk)
      else Drop(t)
    case SynReceived =>
      if m.flags.ack && m.ackNum == t.sndNxt then
        Swallow(AckQueue(t.(sndUna := m.ackNum), m.ackNum).(state := Established))
      else Drop(t)
    case Established => OnEstablished(OnAck(t, m), m, sendOk)
    case FinWait1 =>
      if m.flags.ack && m.ackNum > t.sndUna then
        var t1 := AckQueue(t.(sndUna := m.ackNum), m.ackNum);
        Swallow(if FinStillUnacked(t1) then t1 else t1.(state := FinWait2))
      else Drop(t)
    case FinWait2 =>
      if m.flags.fin && m.seqNum == t.rcvNxt then
        var r := Answer(t.(rcvNxt := Add32(m.seqNum, 1)), PeerFin, sendOk);
        if sendOk then r.(tcb := r.tcb.(state := TimeWait), timeWait := true) else r
      else Swallow(t)
    case Closing =>
      if m.ackNum > t.sndUna then
        var t1 := AckQueue(t.(sndUna := m.ackNum), m.ackNum);
        if FinStillUnacked(t1) then Swallow(t1)
        else Swallow(t1.(state := TimeWait)).(timeWait := true)
      else Drop(t)
    case LastAck =>
      if m.flags.ack && m.ackNum > t.sndUna then
        var t1 := AckQueue(t.(sndUna := m.ackNum), m.ackNum);
        Swallow(if FinStillUnacked(t1) then t1 else ZERO_TCB)
      else Drop(t)
    case TimeWait => Swallow(t)
    case _ => Drop(t)
  }

  // ESTABLISHED, step 1: the acknowledgement field.
  function OnAck(t: Tcb, m: Segment): Tcb {
    if m.flags.ack && t.sndUna < m.ackNum <= t.sndNxt
    then AckQueue(t, m.ackNum).(sndUna := m.ackNum)
    else t
  }

  // ESTABLISHED, steps 2 and 3: the payload, then FIN.
  function OnEstablished(t: Tcb, m: Segment, sendOk: bool): Reaction {
    if |m.payload| > 0 then
      if m.seqNum == t.rcvNxt
      then Answer(t.(rcvNxt := Add32(t.rcvNxt, |m.payload|)), Data(m.payload, sendOk), sendOk)
      else Answer(t, Nothing, sendOk)
    else if m.flags.fin && m.seqNum == t.rcvNxt then
      var r := Answer(t.(rcvNxt := Add32(m.seqNum, 1)), PeerFin, sendOk);
      if sendOk then r.(tcb := r.tcb.(state := CloseWait)) else r
    else if !m.flags.fin then Swallow(t)
    else Drop(t)
  }

  // ---- calls from the application and the timers ----

  function Min(a: nat, b: nat): nat {
    if a < b then a else b
  }

  function Refuse(t: Tcb): Outcome {
    Outcome(t, [], [], false)
  }

  // tcp_send: at most one maximum-size segment of the data is taken.
  function OnSend(t: Tcb, data: seq<byte>, now: nat, sendOk: bool): Outcome {
    if !t.valid || t.state != Established then Refuse(t)
    else if |data| == 0 then Outcome(t, [], [], true)
    else if HasUnacked(t) || !sendOk then Refuse(t)
    else
      var chunk := data[..Min(|data|, TCP_MSS)];
      var m := Segment(t.sndNxt, t.rcvNxt, PSH_ACK, chunk);
      match Track(t, m, t.sndNxt, Add32(t.sndNxt, |chunk|), now)
      case None => Outcome(t, [m], [], false)
      case Some(t1) => Outcome(t1.(sndNxt := Add32(t.sndNxt, |chunk|)), [m], chunk, true)
  }

  function OnClose(t: Tcb, now: nat, sendOk: bool): Outcome {
    if !t.valid || (t.state != Established && t.state != CloseWait) || HasUnacked(t) || !sendOk then Refuse(t)
    else
      var m := Segment(t.sndNxt, t.rcvNxt, FIN_ACK, []);
      match Track(t, m, t.sndNxt, Add32(t.sndNxt, 1), now)
      case None => Outcome(t, [m], [], false)
      case Some(t1) =>
        var next := if t.state == Established then FinWait1 else LastAck;
        Outcome(t1.(sndNxt := Add32(t.sndNxt, 1), state := next), [m], [], true)
  }

  // tcp_retransmit_handler: sends the kept clone again, byte for byte.
  function OnRetransmit(t: Tcb, now: nat, sendOk: bool): Outcome {
    if !t.valid || !HasUnacked(t) || !sendOk then Refuse(t)
    else Outcome(t.(slot := t.slot.(retransmits := t.slot.retransmits + 1, sentTs := now)),
                 [t.slot.pkt.value], [], true)
  }

  // tcp_time_wait_handler for one block.
  function OnTimeWaitExpiry(t: Tcb): Tcb {
    if t.valid && t.state == TimeWait then ZERO_TCB else t
  }

  // ---- what every call and every segment keeps ----

  // The window invariant of one block, whatever the peer sends.
  ghost predicate BlockInv(t: Tcb) {
    && t.sendqCount == (if t.slot.pkt.Some? then 1 else 0)
    && (t.slot.pkt.Some? ==> !t.slot.acked && t.slot.flags == t.slot.pkt.value.flags)
    && ((t.state.SynSent? || t.state.SynReceived?) ==>
          t.sndUna == 0 && t.sndNxt == 1 && t.slot.pkt.Some? && t.slot.seqStart == 0 && t.slot.seqEnd == 1)
    && ((t.state.Established? || t.state.CloseWait?) ==>
          && t.sndUna <= t.sndNxt
          && t.slot.pkt.Some? == (t.sndUna < t.sndNxt)
          && (t.slot.pkt.Some? ==> t.slot.seqStart <= t.sndUna && t.slot.seqEnd == t.sndNxt))
    && ((t.state.FinWait1? || t.state.LastAck?) ==>
          && t.slot.pkt.Some? && t.slot.flags.fin
          && t.slot.seqStart == t.sndUna && t.slot.seqEnd == t.sndNxt == t.sndUna + 1)
    && ((t.state.FinWait2? || t.state.TimeWait?) ==> t.slot.pkt.None? && t.sndUna >= t.sndNxt)
    && ((t.state.Closed? || t.state.Listen?) ==> t.slot.pkt.None?)
    && t.state != Closing
  }

  function Rank(s: State): nat {
    match s
    case Closed | Listen => 0
    case SynSent | SynReceived => 1
    case Established => 2
    case FinWait1 | CloseWait => 3
    case FinWait2 | LastAck | Closing => 4
    case TimeWait => 5
  }

  // A step either releases the block, keeps its state, or moves it strictly up.
  ghost predicate Climbs(before: Tcb, after: Tcb) {
    || after == ZERO_TCB
    || after.state == before.state
    || Rank(before.state) < Rank(after.state)
  }

  // Everything that can happen to one block, with arbitrary segments from the wire.
  datatype BlockEvent =
    | Arrives(m: Segment, sendOk: bool)
    | AppSends(data: seq<byte>, now: nat, sendOk: bool)
    | AppCloses(now: nat, sendOk: bool)
    | TimerResends(now: nat, sendOk: bool)
    | TimeWaitFires

  // A block in use, and how many sequence numbers it has used so far.
  datatype BlockState = BlockState(tcb: Tcb, used: nat)

  function BlockStep(s: BlockState, e: BlockEvent): BlockState {
    if !s.tcb.valid then s
    else match e
      case Arrives(m, ok) => s.(tcb := OnSegment(s.tcb, m, ok).tcb)
      case AppSends(data, now, ok) =>
        var r := OnSend(s.tcb, data, now, ok);
        BlockState(r.tcb, s.used + |r.accepted|)
      case AppCloses(now, ok) =>
        var r := OnClose(s.tcb, now, ok);
        BlockState(r.tcb, if r.ok then s.used + 1 else s.used)
      case TimerResends(now, ok) => s.(tcb := OnRetransmit(s.tcb, now, ok).tcb)
      case TimeWaitFires => s.(tcb := OnTimeWaitExpiry(s.tcb))
  }

  function BlockRun(t: Tcb, events: seq<BlockEvent>): BlockState {
    if events == [] then BlockState(t, 1)
    else BlockStep(BlockRun(t, events[..|events| - 1]), events[|events| - 1])
  }

  ghost predicate BlockStateOk(s: BlockState) {
    s.tcb == ZERO_TCB || (s.tcb.valid && BlockInv(s.tcb) && s.tcb.sndNxt == s.used)
  }

  lemma SegmentKeeps(t: Tcb, m: Segment, sendOk: bool)
    requires t.valid && BlockInv(t)
    ensures var t1 := OnSegment(t, m, sendOk).tcb;
            t1 == ZERO_TCB || (t1.valid && BlockInv(t1) && t1.sndNxt == t.sndNxt && t1.tuple == t.tuple)
  {}

  lemma BlockStepKeeps(s: BlockState, e: BlockEvent)
    requires BlockStateOk(s) && BlockStep(s, e).used < TWO32
    ensures s.used <= BlockStep(s, e).used
    ensures BlockStateOk(BlockStep(s, e))
  {
    if e.Arrives? && s.tcb.valid {
      SegmentKeeps(s.tcb, e.m, e.sendOk);
    }
  }

  // A block opened by either side keeps its window invariant through every sequence of calls,
  // timers and arbitrary segments, as long as fewer than 2^32 sequence numbers were used.
  lemma {:induction false} BlockRunKeepsInvariant(t: Tcb, events: seq<BlockEvent>)
    requires t.valid && BlockInv(t) && t.sndNxt == 1
    requires BlockRun(t, events).used < TWO32
    ensures BlockStateOk(BlockRun(t, events))
    ensures BlockRun(t, events).used >= 1
  {
    if events != [] {
      var before := events[..|events| - 1];
      BlockUsedGrows(t, events);
      BlockRunKeepsInvariant(t, before);
      BlockStepKeeps(BlockRun(t, before), events[|events| - 1]);
    }
  }

  lemma BlockUsedGrows(t: Tcb, events: seq<BlockEvent>)
    requires events != []
    ensures BlockRun(t, events[..|events| - 1]).used <= BlockRun(t, events).used
  {}

  // Opening yields a block in that invariant, with its opening segment in the queue.
  lemma OpenedBlockOk(tuple: Tuple, seqNum: u32, now: nat, sendOk: bool)
    ensures OpenActive(tuple, now, sendOk).Some? <==> sendOk
    ensures OpenPassive(tuple, seqNum, now, sendOk).Some? <==> sendOk
    ensures sendOk ==>
      && BlockInv(OpenActive(tuple, now, true).value.0) && OpenActive(tuple, now, true).value.0.sndNxt == 1
      && BlockInv(OpenPassive(tuple, seqNum, now, true).value.0)
      && OpenPassive(tuple, seqNum, now, true).value.0.sndNxt == 1
  {}

  // Between any two points of any run, the state of a block stays or moves strictly up, until the
  // block is released for good; CLOSING is never entered. No assumption on sequence numbers.
  lemma {:induction false} StateOnlyClimbs(t: Tcb, events: seq<BlockEvent>, n: nat)
    requires t.valid && t.state != Closing && n <= |events|
    ensures var s, s1 := BlockRun(t, events[..n]).tcb, BlockRun(t, events).tcb;
            && (if s.valid then Climbs(s, s1) else s == s1 == ZERO_TCB)
            && s1.state != Closing && (s1.valid || s1 == ZERO_TCB)
    decreases |events|
  {
    if n < |events| {
      var before := events[..|events| - 1];
      assert before[..n] == events[..n];
      StateOnlyClimbs(t, before, n);
      StepClimbs(BlockRun(t, before), events[|events| - 1]);
    } else {
      assert events[..n] == events;
      if n > 0 {
        StateOnlyClimbs(t, events[..n - 1], n - 1);
        StepClimbs(BlockRun(t, events[..n - 1]), events[n - 1]);
      }
    }
  }

  lemma StepClimbs(s: BlockState, e: BlockEvent)
    requires s.tcb == ZERO_TCB || (s.tcb.valid && s.tcb.state != Closing)
    ensures var t1 := BlockStep(s, e).tcb;
            && (t1 == ZERO_TCB || t1.valid)
            && (if s.tcb.valid then Climbs(s.tcb, t1) && t1.state != Closing else t1 == s.tcb)
  {}

  // The first advancing ACK in FIN_WAIT_1 or LAST_ACK always finds the FIN acknowledged.
  lemma AdvancingAckEndsFin(t: Tcb, m: Segment, sendOk: bool)
    requires t.valid && BlockInv(t) && (t.state == FinWait1 || t.state == LastAck)
    ensures var t1 := OnSegment(t, m, sendOk).tcb;
            if m.flags.ack && m.ackNum > t.sndUna
            then if t.state == FinWait1 then t1.state == FinWait2 && t1.slot.pkt.None? else t1 == ZERO_TCB
            else t1 == t
  {}

  // tcp_send and tcp_close succeed exactly when the queue is empty, that is when everything is
  // acknowledged; a segment that was sent is always tracked.
  lemma CallsSucceedIffAcknowledged(t: Tcb, data: seq<byte>, now: nat, sendOk: bool)
    requires t.valid && BlockInv(t)
    ensures var r := OnSend(t, data, now, sendOk);
            && (r.out != [] ==> r.ok)
            && (r.ok <==> t.state == Established && (data == [] || (t.sndUna == t.sndNxt && sendOk)))
            && r.accepted <= data
    ensures var r := OnClose(t, now, sendOk);
            && (r.out != [] ==> r.ok)
            && (r.ok <==> (t.state == Established || t.state == CloseWait) && t.sndUna == t.sndNxt && sendOk)
  {}

  // A block whose last send wrapped: no acknowledgement number lies in its window.
  predicate Stalled(t: Tcb) {
    t.valid && (t.state.Established? || t.state.CloseWait?) && HasUnacked(t) && t.sndNxt < t.sndUna
  }

  lemma StepKeepsStalled(s: BlockState, e: BlockEvent)
    requires Stalled(s.tcb)
    ensures Stalled(BlockStep(s, e).tcb) && BlockStep(s, e).used == s.used
  {}

  // A stalled block stays stalled under everything that can happen to it: the segment is never
  // acknowledged, nothing more is accepted and the connection is never closed.
  lemma {:induction false} StallIsForGood(t: Tcb, events: seq<BlockEvent>)
    requires Stalled(t)
    ensures Stalled(BlockRun(t, events).tcb) && BlockRun(t, events).used == 1
  {
    if events != [] {
      StallIsForGood(t, events[..|events| - 1]);
      StepKeepsStalled(BlockRun(t, events[..|events| - 1]), events[|events| - 1]);
    }
  }

  // Exactly when sequence numbers must not wrap: after a send, some segment, or any run at all, can
  // empty the queue if and only if the new snd_nxt did not pass 2^32. Past it the connection stalls.
  lemma AcknowledgeableIffNoWrap(t: Tcb, data: seq<byte>, now: nat)
    requires t.valid && BlockInv(t) && t.state == Established && t.sndUna == t.sndNxt && data != []
    ensures var t1 := OnSend(t, data, now, true).tcb;
            (exists m :: OnSegment(t1, m, true).tcb.slot.pkt.None?) <==> t.sndNxt + Min(|data|, TCP_MSS) < TWO32
    ensures var t1 := OnSend(t, data, now, true).tcb;
            (exists events :: BlockRun(t1, events).tcb.slot.pkt.None?) <==> t.sndNxt + Min(|data|, TCP_MSS) < TWO32
  {
    var t1 := OnSend(t, data, now, true).tcb;
    if t.sndNxt + Min(|data|, TCP_MSS) < TWO32 {
      var m := Segment(0, t1.sndNxt, ACK, []);
      assert OnSegment(t1, m, true).tcb.slot.pkt.None?;
      OneArrival(t1, m);
    } else {
      assert Stalled(t1);
      forall m ensures OnSegment(t1, m, true).tcb.slot.pkt.Some? {
        StepKeepsStalled(BlockState(t1, 1), Arrives(m, true));
      }
      forall events ensures BlockRun(t1, events).tcb.slot.pkt.Some? {
        StallIsForGood(t1, events);
      }
    }
  }

  lemma OneArrival(t: Tcb, m: Segment)
    requires t.valid
    ensures BlockRun(t, [Arrives(m, true)]).tcb == OnSegment(t, m, true).tcb
  {
    assert [Arrives(m, true)][..0] == [];
  }
}
