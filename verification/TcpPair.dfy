/** Two endpoints of one connection over a network that loses, duplicates and reorders segments.
    The wire is the growing set of segments ever sent; delivery picks any of them, at any time,
    any number of times. Runs are arbitrary sequences of calls, deliveries and timer events. */
module TcpPair {
  import opened Wrappers
  import opened TcpTypes
  import opened TcpBlock

  // One side: its control block (not valid when there is none) and the record of its past.
  //   incarnations  how often a block was opened for this four-tuple
  //   accepted      bytes that successful tcp_send calls took
  //   consumed      bytes that rcv_nxt has passed
  //   delivered     bytes handed to the receive handler
  //   missed        in-order data segments whose acknowledgement could not be sent locally
  datatype Endpoint = Endpoint(tuple: Tuple, tcb: Tcb, incarnations: nat,
                               accepted: seq<byte>, consumed: seq<byte>, delivered: seq<byte>,
                               missed: nat, synced: bool, finSent: bool, finSeen: bool)

  // admit says whether a listener with a free slot would take a SYN; sendOk whether the local send works.
  datatype Move =
    | Connect(now: nat, sendOk: bool)
    | Receive(m: Segment, now: nat, admit: bool, sendOk: bool)
    | SendData(data: seq<byte>, now: nat, sendOk: bool)
    | CloseCall(now: nat, sendOk: bool)
    | Resend(now: nat, sendOk: bool)
    | TimeWaitOver

  datatype Turn = Turn(end: Endpoint, out: seq<Segment>)

  function Fresh(tuple: Tuple): Endpoint {
    Endpoint(tuple, ZERO_TCB, 0, [], [], [], 0, false, false, false)
  }

  function Open(e: Endpoint, opening: Option<(Tcb, Segment)>, synced: bool): Turn {
    match opening
    case None => Turn(e, [])
    case Some((t, m)) => Turn(e.(tcb := t, incarnations := e.incarnations + 1, synced := synced), [m])
  }

  function Absorb(e: Endpoint, r: Reaction): Endpoint {
    var e1 := e.(tcb := r.tcb);
    match r.taken
    case Nothing => e1
    case PeerSyn => e1.(synced := true)
    case PeerFin => e1.(finSeen := true)
    case Data(bytes, true) => e1.(consumed := e.consumed + bytes, delivered := e.delivered + bytes)
    case Data(bytes, false) => e1.(consumed := e.consumed + bytes, missed := e.missed + 1)
  }

  function Act(e: Endpoint, move: Move): Turn {
    match move
    case Connect(now, ok) =>
      if e.tcb.valid || !e.tuple.Complete() then Turn(e, []) else Open(e, OpenActive(e.tuple, now, ok), false)
    case Receive(m, now, admit, ok) =>
      if e.tcb.valid then var r := OnSegment(e.tcb, m, ok); Turn(Absorb(e, r), r.out)
      else if m.flags == SYN && admit then Open(e, OpenPassive(e.tuple, m.seqNum, now, ok), true)
      else Turn(e, [])
    case SendData(data, now, ok) =>
      var r := OnSend(e.tcb, data, now, ok);
      Turn(e.(tcb := r.tcb, accepted := e.accepted + r.accepted), r.out)
    case CloseCall(now, ok) =>
      var r := OnClose(e.tcb, now, ok);
      Turn(e.(tcb := r.tcb, finSent := e.finSent || r.ok), r.out)
    case Resend(now, ok) =>
      var r := OnRetransmit(e.tcb, now, ok);
      Turn(e.(tcb := r.tcb), r.out)
    case TimeWaitOver => Turn(e.(tcb := OnTimeWaitExpiry(e.tcb)), [])
  }

  datatype Side = A | B

  datatype Action = Action(side: Side, move: Move)

  // wireA holds every segment that A ever sent, wireB every segment that B ever sent.
  datatype Pair = Pair(a: Endpoint, b: Endpoint, wireA: set<Segment>, wireB: set<Segment>)

  function Elements(s: seq<Segment>): set<Segment> {
    set m | m in s
  }

  // A move is possible unless it receives a segment that the peer never sent.
  predicate Possible(move: Move, peerWire: set<Segment>) {
    move.Receive? ==> move.m in peerWire
  }

  function Step(s: Pair, action: Action): Pair {
    match action.side
    case A =>
      if !Possible(action.move, s.wireB) then s
      else var t := Act(s.a, action.move); s.(a := t.end, wireA := s.wireA + Elements(t.out))
    case B =>
      if !Possible(action.move, s.wireA) then s
      else var t := Act(s.b, action.move); s.(b := t.end, wireB := s.wireB + Elements(t.out))
  }

  function Run(tuple: Tuple, actions: seq<Action>): Pair {
    if actions == [] then Pair(Fresh(tuple), Fresh(tuple.Mirror()), {}, {})
    else Step(Run(tuple, actions[..|actions| - 1]), actions[|actions| - 1])
  }

  // ---- the assumptions under which the protocol is safe ----

  function SendEnd(e: Endpoint): nat {
    if e.incarnations == 0 then 0 else 1 + |e.accepted| + (if e.finSent then 1 else 0)
  }

  function ReceiveEnd(e: Endpoint): nat {
    if e.synced then 1 + |e.consumed| + (if e.finSeen then 1 else 0) else 0
  }

  // One incarnation per side, and fewer than 2^32 bytes accepted by each.
  predicate Clean(s: Pair) {
    && s.a.incarnations <= 1 && s.b.incarnations <= 1
    && |s.a.accepted| < TWO32 && |s.b.accepted| < TWO32
  }

  // The 32-bit value of a position in the stream; only 2^32 itself wraps, to 0.
  function Low(n: nat): nat {
    if n == TWO32 then 0 else n
  }

  // ---- the invariant ----

  ghost predicate LocalOk(e: Endpoint) {
    && SendEnd(e) <= TWO32
    && (e.incarnations == 0 ==>
          !e.tcb.valid && !e.synced && !e.finSent && |e.accepted| == 0 && |e.consumed| == 0)
    && (e.incarnations == 1 && !e.tcb.valid ==> e.finSent && e.finSeen && e.synced && SendEnd(e) < TWO32)
    && (!e.synced ==> !e.finSeen)
    && (e.tcb.valid ==> BlockOk(e))
    && (if e.missed == 0 then e.delivered == e.consumed else |e.delivered| < |e.consumed|)
  }

  ghost predicate BlockOk(e: Endpoint) {
    && (if SendEnd(e) < TWO32 then BlockInv(e.tcb) && e.tcb.sndNxt == SendEnd(e)
        else SendEnd(e) == TWO32 && Stuck(e.tcb))
    && e.tcb.rcvNxt == Low(ReceiveEnd(e))
    && (!e.tcb.state.Closed? && !e.tcb.state.Listen?)
    && ((e.tcb.state.SynSent? || e.tcb.state.SynReceived?) ==> !e.finSeen && |e.accepted| == 0 && |e.consumed| == 0)
    && e.synced == (e.tcb.state != SynSent)
    && e.finSent == ((e.tcb.state.FinWait1? || e.tcb.state.FinWait2? || e.tcb.state.LastAck? || e.tcb.state.TimeWait?))
    && ((e.tcb.state.CloseWait? || e.tcb.state.LastAck? || e.tcb.state.TimeWait?) ==> e.finSeen)
  }

  // The last sequence number is used: what was sent last is never acknowledged.
  ghost predicate Stuck(t: Tcb) {
    && t.valid && HasUnacked(t) && t.sndNxt == 0 && t.sndUna > 0
    && (t.state.Established? || t.state.CloseWait? || t.state.FinWait1? || t.state.LastAck?)
    && ((t.state.FinWait1? || t.state.LastAck?) ==> t.sndUna == TWO32 - 1)
  }

  // What is true of every segment that x ever sent.
  ghost predicate SentBy(x: Endpoint, m: Segment) {
    && x.incarnations == 1
    && m.ackNum <= ReceiveEnd(x)
    && (m.flags.syn ==> m.seqNum == 0 && |m.payload| == 0 && !m.flags.fin)
    && (m.flags.fin ==> x.finSent && |m.payload| == 0 && m.seqNum == 1 + |x.accepted|)
    && (|m.payload| > 0 ==>
          && 1 <= m.seqNum && m.seqNum - 1 + |m.payload| <= |x.accepted|
          && m.payload == x.accepted[m.seqNum - 1..m.seqNum - 1 + |m.payload|])
  }

  ghost predicate WireOk(x: Endpoint, wire: set<Segment>) {
    && (forall m <- wire :: SentBy(x, m))
    && (x.tcb.valid && x.tcb.slot.pkt.Some? ==> x.tcb.slot.pkt.value in wire)
  }

  // The stream from x to y: y consumed a prefix of what x accepted, and acknowledgements that
  // x took are covered by what y consumed.
  ghost predicate StreamOk(x: Endpoint, y: Endpoint) {
    && y.consumed <= x.accepted
    && (y.synced ==> x.incarnations == 1)
    && (y.finSeen ==> x.finSent && |y.consumed| == |x.accepted|)
    && (x.tcb.valid ==> x.tcb.sndUna <= ReceiveEnd(y))
    && (x.finSent && !x.tcb.valid ==> ReceiveEnd(y) == SendEnd(x))
    && (x.finSent ==> |y.consumed| == |x.accepted|)
  }

  ghost predicate Safe(s: Pair) {
    && LocalOk(s.a) && LocalOk(s.b)
    && WireOk(s.a, s.wireA) && WireOk(s.b, s.wireB)
    && StreamOk(s.a, s.b) && StreamOk(s.b, s.a)
  }

  // ---- one move of x, with peer y ----

  ghost predicate EndsOk(x: Endpoint, y: Endpoint) {
    && LocalOk(x) && LocalOk(y) && StreamOk(x, y) && StreamOk(y, x)
    && x.incarnations <= 1 && y.incarnations <= 1
  }

  // How an endpoint's past can grow within one incarnation.
  ghost predicate Grew(x: Endpoint, x1: Endpoint) {
    && x.incarnations <= x1.incarnations <= 1
    && x.accepted <= x1.accepted && x.consumed <= x1.consumed && x.delivered <= x1.delivered
    && (x.finSent ==> x1.finSent && |x1.accepted| == |x.accepted|)
    && (x.synced ==> x1.synced)
    && (x.finSeen ==> x1.finSeen && |x1.consumed| == |x.consumed|)
    && ReceiveEnd(x) <= ReceiveEnd(x1)
  }

  // The invariant after x became x1 and sent out.
  ghost predicate TurnOk(x: Endpoint, y: Endpoint, t: Turn) {
    && Grew(x, t.end) && LocalOk(t.end) && StreamOk(t.end, y) && StreamOk(y, t.end)
    && (forall m <- t.out :: SentBy(t.end, m))
    && (t.end.tcb.valid && t.end.tcb.slot.pkt.Some? ==>
          t.end.tcb.slot.pkt.value in t.out || (x.tcb.valid && x.tcb.slot.pkt == t.end.tcb.slot.pkt))
  }

  lemma ConnectKeepsEnds(x: Endpoint, y: Endpoint, move: Move)
    requires EndsOk(x, y) && move.Connect? && Act(x, move).end.incarnations <= 1
    ensures TurnOk(x, y, Act(x, move))
  {}

  lemma IdleKeepsEnds(x: Endpoint, y: Endpoint)
    requires EndsOk(x, y) && x.incarnations <= 1
    ensures TurnOk(x, y, Turn(x, []))
  {}

  lemma SendOutcome(t: Tcb, data: seq<byte>, now: nat)
    requires t.valid && t.state == Established && t.slot.pkt.None? && |data| > 0 && t.sendqCount == 0
    ensures var r, chunk := OnSend(t, data, now, true), data[..Min(|data|, TCP_MSS)];
            var m, end := Segment(t.sndNxt, t.rcvNxt, PSH_ACK, chunk), Add32(t.sndNxt, |chunk|);
            r == Outcome(t.(slot := Slot(Some(m), t.sndNxt, end, PSH_ACK, now, 0, false),
                            sendqCount := 1, sndNxt := end),
                         [m], chunk, true)
  {}

  lemma AcceptKeepsEnds(x: Endpoint, y: Endpoint, data: seq<byte>, now: nat)
    requires EndsOk(x, y) && x.tcb.valid && x.tcb.state == Established && x.tcb.slot.pkt.None? && |data| > 0
    requires |x.accepted| + Min(|data|, TCP_MSS) < TWO32
    ensures var r := OnSend(x.tcb, data, now, true);
            TurnOk(x, y, Turn(x.(tcb := r.tcb, accepted := x.accepted + r.accepted), r.out))
  {
    SendOutcome(x.tcb, data, now);
    hide OnSend;
    var r := OnSend(x.tcb, data, now, true);
    var x1, m := x.(tcb := r.tcb, accepted := x.accepted + r.accepted), r.out[0];
    AcceptedInStream(x, x1, y, r.accepted);
    assert LocalOk(x1);
    AppendedSlice(x.accepted, r.accepted);
    assert SentBy(x1, m);
  }

  lemma AppendedSlice(prefix: seq<byte>, chunk: seq<byte>)
    ensures (prefix + chunk)[|prefix|..|prefix| + |chunk|] == chunk
  {}

  // Accepting more bytes leaves the streams as they are.
  lemma AcceptedInStream(x: Endpoint, x1: Endpoint, y: Endpoint, chunk: seq<byte>)
    requires StreamOk(x, y) && StreamOk(y, x) && !x.finSent && x.tcb.valid
    requires x1 == x.(tcb := x1.tcb, accepted := x.accepted + chunk) && x1.tcb.valid && x1.tcb.sndUna == x.tcb.sndUna
    requires !y.finSeen
    ensures StreamOk(x1, y) && StreamOk(y, x1) && x.accepted <= x1.accepted
  {}

  lemma CloseOutcome(t: Tcb, now: nat)
    requires t.valid && (t.state.Established? || t.state.CloseWait?) && t.slot.pkt.None? && t.sendqCount == 0
    ensures var m, end := Segment(t.sndNxt, t.rcvNxt, FIN_ACK, []), Add32(t.sndNxt, 1);
            OnClose(t, now, true) ==
            Outcome(t.(slot := Slot(Some(m), t.sndNxt, end, FIN_ACK, now, 0, false), sendqCount := 1, sndNxt := end,
                       state := if t.state.Established? then FinWait1 else LastAck),
                    [m], [], true)
  {}

  lemma FinishKeepsEnds(x: Endpoint, y: Endpoint, now: nat)
    requires EndsOk(x, y) && x.tcb.valid && (x.tcb.state.Established? || x.tcb.state.CloseWait?) && x.tcb.slot.pkt.None?
    ensures var r := OnClose(x.tcb, now, true); TurnOk(x, y, Turn(x.(tcb := r.tcb, finSent := true), r.out))
  {
    CloseOutcome(x.tcb, now);
    hide OnClose;
    var r := OnClose(x.tcb, now, true);
    var x1 := x.(tcb := r.tcb, finSent := true);
    assert |y.consumed| == |x.accepted|;
    assert LocalOk(x1) && StreamOk(x1, y) && StreamOk(y, x1);
  }

  lemma CloseKeepsEnds(x: Endpoint, y: Endpoint, move: Move)
    requires EndsOk(x, y) && move.CloseCall?
    ensures TurnOk(x, y, Act(x, move))
  {
    hide LocalOk, StreamOk, Grew, SentBy;
    var r := OnClose(x.tcb, move.now, move.sendOk);
    if r.ok {
      QueueIsEmpty(x);
      FinishKeepsEnds(x, y, move.now);
    } else {
      if x.tcb.valid { QueueIsEmpty(x); }
      assert Act(x, move) == Turn(x, []);
      IdleKeepsEnds(x, y);
    }
  }

  // The queue holds nothing that is acknowledged, and what it holds is counted.
  lemma QueueIsEmpty(x: Endpoint)
    requires LocalOk(x) && x.tcb.valid
    ensures x.tcb.slot.pkt.Some? ==> HasUnacked(x.tcb)
    ensures x.tcb.slot.pkt.None? ==> x.tcb.sendqCount == 0
  {}

  lemma ResendKeepsEnds(x: Endpoint, y: Endpoint, t: Tcb, m: Segment)
    requires EndsOk(x, y) && x.tcb.valid && x.tcb.slot.pkt == Some(m) && SentBy(x, m)
    requires t == x.tcb.(slot := x.tcb.slot.(sentTs := t.slot.sentTs, retransmits := t.slot.retransmits))
    ensures TurnOk(x, y, Turn(x.(tcb := t), [m]))
  {
    var x1 := x.(tcb := t);
    assert LocalOk(x1) by {
      SameQueue(x.tcb, t);
      hide BlockInv, Stuck;
    }
    assert StreamOk(x1, y) && StreamOk(y, x1) && SentBy(x1, m) && Grew(x, x1);
    hide LocalOk, StreamOk, SentBy, Grew;
  }

  lemma SameQueue(t: Tcb, t1: Tcb)
    requires t1 == t.(slot := t.slot.(sentTs := t1.slot.sentTs, retransmits := t1.slot.retransmits))
    ensures (BlockInv(t) ==> BlockInv(t1)) && (Stuck(t) ==> Stuck(t1))
  {}

  lemma ReleaseKeepsEnds(x: Endpoint, y: Endpoint)
    requires EndsOk(x, y) && x.tcb.valid && x.tcb.state == TimeWait
    ensures TurnOk(x, y, Turn(x.(tcb := ZERO_TCB), []))
  {}

  lemma SynKeepsEnds(x: Endpoint, y: Endpoint, move: Move)
    requires EndsOk(x, y) && move.Receive? && SentBy(y, move.m) && !x.tcb.valid
    requires Act(x, move).end.incarnations <= 1
    ensures TurnOk(x, y, Act(x, move))
  {}

  lemma OpeningKeepsEnds(x: Endpoint, y: Endpoint, m: Segment, sendOk: bool)
    requires EndsOk(x, y) && SentBy(y, m) && x.tcb.valid && (x.tcb.state == SynSent || x.tcb.state == SynReceived)
    ensures var r := OnSegment(x.tcb, m, sendOk); TurnOk(x, y, Turn(Absorb(x, r), r.out))
  {}

  lemma AckOutcome(t: Tcb, m: Segment)
    requires t.valid && t.state == Established
    ensures var t1 := OnAck(t, m);
            && t1 == t.(sndUna := t1.sndUna, slot := t1.slot, sendqCount := t1.sendqCount)
            && (t1.sndUna == t.sndUna || t1.sndUna == m.ackNum)
            && (t1.slot.pkt.Some? ==> t1.slot == t.slot)
            && (Stuck(t) ==> t1 == t) && (BlockInv(t) ==> BlockInv(t1))
  {}

  // ESTABLISHED takes the acknowledgement first, as if it had come alone.
  lemma AckKeepsEnds(x: Endpoint, y: Endpoint, m: Segment)
    requires EndsOk(x, y) && SentBy(y, m) && x.tcb.valid && x.tcb.state == Established
    ensures EndsOk(x.(tcb := OnAck(x.tcb, m)), y)
  {
    AckOutcome(x.tcb, m);
    hide OnAck, BlockInv, Stuck;
  }

  lemma PrefixGrows(prefix: seq<byte>, next: seq<byte>, whole: seq<byte>)
    requires prefix <= whole && |prefix| + |next| <= |whole| && next == whole[|prefix|..|prefix| + |next|]
    ensures prefix + next <= whole && prefix + next == whole[..|prefix| + |next|]
  {}

  lemma InOrderDataKeepsEnds(x: Endpoint, y: Endpoint, m: Segment, sendOk: bool)
    requires EndsOk(x, y) && SentBy(y, m) && x.tcb.valid && x.tcb.state == Established
    requires |m.payload| > 0 && m.seqNum == x.tcb.rcvNxt
    ensures var r := OnEstablished(x.tcb, m, sendOk); TurnOk(x, y, Turn(Absorb(x, r), r.out))
  {
    assert !x.finSeen && x.tcb.rcvNxt == 1 + |x.consumed|;
    var r := OnEstablished(x.tcb, m, sendOk);
    var t1 := x.tcb.(rcvNxt := Add32(x.tcb.rcvNxt, |m.payload|));
    assert r == Answer(t1, Data(m.payload, sendOk), sendOk);
    hide OnEstablished;
    var x1 := Absorb(x, r);
    PrefixGrows(x.consumed, m.payload, y.accepted);
    SameSendSide(x.tcb, t1);
    assert LocalOk(x1);
    assert StreamOk(x1, y) && StreamOk(y, x1);
  }

  lemma SameSendSide(t: Tcb, t1: Tcb)
    requires t1 == t.(rcvNxt := t1.rcvNxt)
    ensures (BlockInv(t) ==> BlockInv(t1)) && (Stuck(t) ==> Stuck(t1))
  {}

  lemma OtherPayloadKeepsEnds(x: Endpoint, y: Endpoint, m: Segment, sendOk: bool)
    requires EndsOk(x, y) && SentBy(y, m) && x.tcb.valid && x.tcb.state == Established
    requires |m.payload| == 0 || m.seqNum != x.tcb.rcvNxt
    ensures var r := OnEstablished(x.tcb, m, sendOk); TurnOk(x, y, Turn(Absorb(x, r), r.out))
  {
    var r := OnEstablished(x.tcb, m, sendOk);
    if |m.payload| == 0 && m.flags.fin && m.seqNum == x.tcb.rcvNxt {
      FinKeepsEnds(x, y, m, sendOk);
    } else {
      assert Absorb(x, r) == x && (r.out == [] || r.out == [PureAck(x.tcb)]);
      UnchangedKeepsEnds(x, y, r.out);
    }
  }

  lemma UnchangedKeepsEnds(x: Endpoint, y: Endpoint, out: seq<Segment>)
    requires EndsOk(x, y) && x.tcb.valid && (out == [] || out == [PureAck(x.tcb)]) && x.incarnations == 1
    ensures TurnOk(x, y, Turn(x, out))
  {}

  lemma FinKeepsEnds(x: Endpoint, y: Endpoint, m: Segment, sendOk: bool)
    requires EndsOk(x, y) && SentBy(y, m) && x.tcb.valid && x.tcb.state == Established
    requires |m.payload| == 0 && m.flags.fin && m.seqNum == x.tcb.rcvNxt
    ensures var r := OnEstablished(x.tcb, m, sendOk); TurnOk(x, y, Turn(Absorb(x, r), r.out))
  {
    assert !x.finSeen && x.tcb.rcvNxt == 1 + |x.consumed|;
  }

  lemma FinWait1KeepsEnds(x: Endpoint, y: Endpoint, m: Segment, sendOk: bool)
    requires EndsOk(x, y) && SentBy(y, m) && x.tcb.valid && x.tcb.state == FinWait1
    ensures var r := OnSegment(x.tcb, m, sendOk); TurnOk(x, y, Turn(Absorb(x, r), r.out))
  {}

  lemma FinWait2KeepsEnds(x: Endpoint, y: Endpoint, m: Segment, sendOk: bool)
    requires EndsOk(x, y) && SentBy(y, m) && x.tcb.valid && x.tcb.state == FinWait2
    ensures var r := OnSegment(x.tcb, m, sendOk); TurnOk(x, y, Turn(Absorb(x, r), r.out))
  {}

  lemma LastStatesKeepsEnds(x: Endpoint, y: Endpoint, m: Segment, sendOk: bool)
    requires EndsOk(x, y) && SentBy(y, m)
    requires x.tcb.valid && (x.tcb.state == CloseWait || x.tcb.state == LastAck || x.tcb.state == TimeWait)
    ensures var r := OnSegment(x.tcb, m, sendOk); TurnOk(x, y, Turn(Absorb(x, r), r.out))
  {}

  lemma PayloadKeepsEnds(x: Endpoint, y: Endpoint, m: Segment, sendOk: bool)
    requires EndsOk(x, y) && SentBy(y, m) && x.tcb.valid && x.tcb.state == Established
    ensures var r := OnEstablished(x.tcb, m, sendOk); TurnOk(x, y, Turn(Absorb(x, r), r.out))
  {
    if |m.payload| > 0 && m.seqNum == x.tcb.rcvNxt {
      InOrderDataKeepsEnds(x, y, m, sendOk);
    } else {
      OtherPayloadKeepsEnds(x, y, m, sendOk);
    }
  }

  lemma TurnFromSamePast(x: Endpoint, x1: Endpoint, y: Endpoint, t: Turn)
    requires TurnOk(x1, y, t) && x1 == x.(tcb := x1.tcb) && x.tcb.valid
    requires x1.tcb.slot.pkt.Some? ==> x1.tcb.slot.pkt == x.tcb.slot.pkt
    ensures TurnOk(x, y, t)
  {}

  lemma EstablishedKeepsEnds(x: Endpoint, y: Endpoint, m: Segment, sendOk: bool)
    requires EndsOk(x, y) && SentBy(y, m) && x.tcb.valid && x.tcb.state == Established
    ensures var r := OnSegment(x.tcb, m, sendOk); TurnOk(x, y, Turn(Absorb(x, r), r.out))
  {
    hide LocalOk, StreamOk, Grew;
    var x1 := x.(tcb := OnAck(x.tcb, m));
    var r := OnEstablished(x1.tcb, m, sendOk);
    var t := Turn(Absorb(x1, r), r.out);
    assert TurnOk(x, y, t) by {
      AckKeepsEnds(x, y, m);
      PayloadKeepsEnds(x1, y, m, sendOk);
      TurnFromSamePast(x, x1, y, t);
    }
    assert t == Turn(Absorb(x, r), r.out);
  }

  lemma ReceiveKeepsEnds(x: Endpoint, y: Endpoint, m: Segment, sendOk: bool)
    requires EndsOk(x, y) && SentBy(y, m) && x.tcb.valid
    ensures var r := OnSegment(x.tcb, m, sendOk); TurnOk(x, y, Turn(Absorb(x, r), r.out))
  {
    match x.tcb.state
    case SynSent | SynReceived => OpeningKeepsEnds(x, y, m, sendOk);
    case Established => EstablishedKeepsEnds(x, y, m, sendOk);
    case FinWait1 => FinWait1KeepsEnds(x, y, m, sendOk);
    case FinWait2 => FinWait2KeepsEnds(x, y, m, sendOk);
    case _ => LastStatesKeepsEnds(x, y, m, sendOk);
  }

  lemma SendKeepsEnds(x: Endpoint, y: Endpoint, move: Move)
    requires EndsOk(x, y) && move.SendData? && |Act(x, move).end.accepted| < TWO32
    ensures TurnOk(x, y, Act(x, move))
  {
    var r := OnSend(x.tcb, move.data, move.now, move.sendOk);
    hide LocalOk, StreamOk, Grew, SentBy;
    if x.tcb.valid { QueueIsEmpty(x); }
    if |r.accepted| == 0 {
      assert Act(x, move) == Turn(x, []);
      IdleKeepsEnds(x, y);
    } else {
      AcceptKeepsEnds(x, y, move.data, move.now);
    }
  }

  lemma TimersKeepEnds(x: Endpoint, y: Endpoint, move: Move)
    requires EndsOk(x, y) && (move.Resend? || move.TimeWaitOver?)
    requires x.tcb.valid && x.tcb.slot.pkt.Some? ==> SentBy(x, x.tcb.slot.pkt.value)
    ensures TurnOk(x, y, Act(x, move))
  {
    hide LocalOk, StreamOk, Grew, SentBy;
    if move.Resend? && OnRetransmit(x.tcb, move.now, move.sendOk).ok {
      ResendKeepsEnds(x, y, OnRetransmit(x.tcb, move.now, move.sendOk).tcb, x.tcb.slot.pkt.value);
    } else if move.TimeWaitOver? && x.tcb.valid && x.tcb.state == TimeWait {
      ReleaseKeepsEnds(x, y);
    } else {
      assert Act(x, move) == Turn(x, []);
      IdleKeepsEnds(x, y);
    }
  }

  lemma MoveKeepsEnds(x: Endpoint, y: Endpoint, move: Move)
    requires EndsOk(x, y)
    requires x.tcb.valid && x.tcb.slot.pkt.Some? ==> SentBy(x, x.tcb.slot.pkt.value)
    requires move.Receive? ==> SentBy(y, move.m)
    requires var x1 := Act(x, move).end; x1.incarnations <= 1 && |x1.accepted| < TWO32
    ensures TurnOk(x, y, Act(x, move))
  {
    match move
    case Connect(_, _) => ConnectKeepsEnds(x, y, move);
    case SendData(_, _, _) => SendKeepsEnds(x, y, move);
    case CloseCall(_, _) => CloseKeepsEnds(x, y, move);
    case Resend(_, _) | TimeWaitOver => TimersKeepEnds(x, y, move);
    case Receive(m, _, _, sendOk) =>
      if x.tcb.valid { ReceiveKeepsEnds(x, y, m, sendOk); } else { SynKeepsEnds(x, y, move); }
  }

  lemma MoveKeepsWire(x: Endpoint, y: Endpoint, wx: set<Segment>, wy: set<Segment>, move: Move)
    requires EndsOk(x, y) && WireOk(x, wx) && WireOk(y, wy) && Possible(move, wy)
    requires var x1 := Act(x, move).end; x1.incarnations <= 1 && |x1.accepted| < TWO32
    ensures var t := Act(x, move); Grew(x, t.end) && EndsOk(t.end, y) && WireOk(t.end, wx + Elements(t.out))
  {
    MoveKeepsEnds(x, y, move);
    WireGrows(x, y, wx, Act(x, move));
  }

  lemma WireGrows(x: Endpoint, y: Endpoint, wx: set<Segment>, t: Turn)
    requires WireOk(x, wx) && TurnOk(x, y, t)
    ensures WireOk(t.end, wx + Elements(t.out))
  {
    forall m | m in wx ensures SentBy(t.end, m) {
      assert SentBy(x, m);
    }
  }

  // ---- runs ----

  ghost predicate OnlyGrew(e: Endpoint, e1: Endpoint) {
    && e.incarnations <= e1.incarnations && SendEnd(e) <= SendEnd(e1)
    && e.accepted <= e1.accepted && e.consumed <= e1.consumed && e.delivered <= e1.delivered
  }

  lemma AbsorbOnlyGrows(e: Endpoint, r: Reaction)
    ensures OnlyGrew(e, Absorb(e, r))
  {}

  lemma MovesOnlyGrow(e: Endpoint, move: Move)
    ensures OnlyGrew(e, Act(e, move).end)
  {
    if move.Receive? && e.tcb.valid {
      AbsorbOnlyGrows(e, OnSegment(e.tcb, move.m, move.sendOk));
    }
  }

  lemma StepKeepsSafe(s: Pair, action: Action)
    requires Safe(s) && Clean(s) && Clean(Step(s, action))
    ensures Safe(Step(s, action))
  {
    if action.side == A {
      if Possible(action.move, s.wireB) {
        MoveKeepsWire(s.a, s.b, s.wireA, s.wireB, action.move);
      }
    } else if Possible(action.move, s.wireA) {
      MoveKeepsWire(s.b, s.a, s.wireB, s.wireA, action.move);
    }
  }

  // The invariant holds after every run within one incarnation and fewer than 2^32 bytes each way.
  lemma {:induction false} RunIsSafe(tuple: Tuple, actions: seq<Action>)
    requires Clean(Run(tuple, actions))
    ensures Safe(Run(tuple, actions))
  {
    if actions != [] {
      var before, last := actions[..|actions| - 1], actions[|actions| - 1];
      var s := Run(tuple, before);
      MovesOnlyGrow(s.a, last.move);
      MovesOnlyGrow(s.b, last.move);
      RunIsSafe(tuple, before);
      StepKeepsSafe(s, last);
    }
  }

  ghost predicate DeliveredOf(x: Endpoint, y: Endpoint) {
    && y.consumed <= x.accepted
    && (y.delivered == x.accepted[..|y.consumed|] <==> y.missed == 0)
  }

  // Stream safety: each receive handler has seen, in order and once, exactly the bytes of the peer's
  // stream up to rcv_nxt, if and only if no acknowledgement of in-order data failed to be sent locally.
  lemma DeliveryIsExactPrefix(tuple: Tuple, actions: seq<Action>)
    requires Clean(Run(tuple, actions))
    ensures var s := Run(tuple, actions); DeliveredOf(s.a, s.b) && DeliveredOf(s.b, s.a)
  {
    RunIsSafe(tuple, actions);
  }

  // With working local sends, what was delivered is a prefix of what the peer's tcp_send calls accepted.
  lemma DeliveryIsPrefix(tuple: Tuple, actions: seq<Action>)
    requires Clean(Run(tuple, actions))
    requires forall action <- actions :: action.move.Receive? ==> action.move.sendOk
    ensures var s := Run(tuple, actions);
            s.b.delivered <= s.a.accepted && s.a.delivered <= s.b.accepted
  {
    RunIsSafe(tuple, actions);
    WorkingSendsMissNothing(tuple, actions);
  }

  lemma WorkingSendMissesNothing(e: Endpoint, move: Move)
    requires move.Receive? ==> move.sendOk
    ensures Act(e, move).end.missed == e.missed
  {}

  lemma {:induction false} WorkingSendsMissNothing(tuple: Tuple, actions: seq<Action>)
    requires forall action <- actions :: action.move.Receive? ==> action.move.sendOk
    ensures var s := Run(tuple, actions); s.a.missed == 0 && s.b.missed == 0
  {
    if actions != [] {
      var before, last := actions[..|actions| - 1], actions[|actions| - 1];
      assert forall action <- before :: action in actions;
      assert last in actions;
      WorkingSendsMissNothing(tuple, before);
      WorkingSendMissesNothing(Run(tuple, before).a, last.move);
      WorkingSendMissesNothing(Run(tuple, before).b, last.move);
    }
  }

  // Nothing that was delivered or accepted is ever taken back.
  lemma {:induction false} HistoryIsKept(tuple: Tuple, actions: seq<Action>, n: nat)
    requires n <= |actions|
    ensures var s, t := Run(tuple, actions[..n]), Run(tuple, actions);
            && s.a.delivered <= t.a.delivered && s.b.delivered <= t.b.delivered
            && s.a.accepted <= t.a.accepted && s.b.accepted <= t.b.accepted
            && s.wireA <= t.wireA && s.wireB <= t.wireB
    decreases |actions|
  {
    if n < |actions| {
      var before, last := actions[..|actions| - 1], actions[|actions| - 1];
      assert before[..n] == actions[..n];
      HistoryIsKept(tuple, before, n);
      var s := Run(tuple, before);
      MovesOnlyGrow(s.a, last.move);
      MovesOnlyGrow(s.b, last.move);
    } else {
      assert actions[..n] == actions;
    }
  }

  ghost predicate WindowSound(x: Endpoint, y: Endpoint, wireY: set<Segment>) {
    && (x.tcb.valid ==> x.tcb.sndUna <= x.tcb.sndNxt)
    && (x.tcb.valid && y.tcb.valid ==> x.tcb.sndUna <= y.tcb.rcvNxt <= x.tcb.sndNxt)
    && (y.tcb.valid ==> forall m <- wireY :: m.ackNum <= y.tcb.rcvNxt)
  }

  // The window is sound in every state, FIN_WAIT_1 and LAST_ACK included, as long as neither side has
  // used the last sequence number. Whoever has used it has snd_una > snd_nxt.
  lemma WindowIsSound(tuple: Tuple, actions: seq<Action>)
    requires Clean(Run(tuple, actions))
    ensures var s := Run(tuple, actions);
            SendEnd(s.a) < TWO32 && SendEnd(s.b) < TWO32 ==>
              WindowSound(s.a, s.b, s.wireB) && WindowSound(s.b, s.a, s.wireA)
    ensures var s := Run(tuple, actions);
            && ((s.a.tcb.valid ==> s.a.tcb.sndUna <= s.a.tcb.sndNxt) <==> SendEnd(s.a) < TWO32)
            && ((s.b.tcb.valid ==> s.b.tcb.sndUna <= s.b.tcb.sndNxt) <==> SendEnd(s.b) < TWO32)
  {
    RunIsSafe(tuple, actions);
    var s := Run(tuple, actions);
    forall m | m in s.wireA ensures m.ackNum <= ReceiveEnd(s.a) { assert SentBy(s.a, m); }
    forall m | m in s.wireB ensures m.ackNum <= ReceiveEnd(s.b) { assert SentBy(s.b, m); }
    if SendEnd(s.a) < TWO32 && SendEnd(s.b) < TWO32 {
      WindowOf(s.a, s.b, s.wireB);
      WindowOf(s.b, s.a, s.wireA);
    }
    WindowUntilWrap(s.a, s.b);
    WindowUntilWrap(s.b, s.a);
  }

  lemma WindowUntilWrap(x: Endpoint, y: Endpoint)
    requires LocalOk(x) && LocalOk(y) && StreamOk(x, y) && StreamOk(y, x) && x.incarnations <= 1
    ensures (x.tcb.valid ==> x.tcb.sndUna <= x.tcb.sndNxt) <==> SendEnd(x) < TWO32
  {}

  lemma WindowOf(x: Endpoint, y: Endpoint, wireY: set<Segment>)
    requires LocalOk(x) && LocalOk(y) && StreamOk(x, y) && StreamOk(y, x) && x.incarnations <= 1
    requires SendEnd(x) < TWO32
    requires forall m <- wireY :: m.ackNum <= ReceiveEnd(y)
    ensures WindowSound(x, y, wireY)
  {}

  ghost predicate EndOfStream(x: Endpoint, y: Endpoint) {
    y.tcb.valid && (y.tcb.state.CloseWait? || y.tcb.state.LastAck? || y.tcb.state.TimeWait?) ==>
      x.finSent && y.consumed == x.accepted && (y.missed == 0 ==> y.delivered == x.accepted)
  }

  // Whoever has accepted the peer's FIN has received the peer's whole stream.
  lemma FinMeansWholeStream(tuple: Tuple, actions: seq<Action>)
    requires Clean(Run(tuple, actions))
    ensures var s := Run(tuple, actions); EndOfStream(s.a, s.b) && EndOfStream(s.b, s.a)
  {
    RunIsSafe(tuple, actions);
  }

  ghost predicate AllReceived(x: Endpoint, y: Endpoint, now: nat, sendOk: bool) {
    OnClose(x.tcb, now, sendOk).ok ==> y.consumed == x.accepted && (y.missed == 0 ==> y.delivered == x.accepted)
  }

  // When tcp_close succeeds, the peer has already received every byte the closer ever sent, and with
  // working local sends its receive handler has got them all.
  lemma CloseMeansAllReceived(tuple: Tuple, actions: seq<Action>, now: nat, sendOk: bool)
    requires Clean(Run(tuple, actions))
    ensures var s := Run(tuple, actions);
            AllReceived(s.a, s.b, now, sendOk) && AllReceived(s.b, s.a, now, sendOk)
  {
    RunIsSafe(tuple, actions);
    var s := Run(tuple, actions);
    ClosePreconditions(s.a, s.b, now, sendOk);
    ClosePreconditions(s.b, s.a, now, sendOk);
  }

  lemma ClosePreconditions(x: Endpoint, y: Endpoint, now: nat, sendOk: bool)
    requires LocalOk(x) && LocalOk(y) && StreamOk(x, y) && StreamOk(y, x) && x.incarnations <= 1
    ensures AllReceived(x, y, now, sendOk)
  {}
}
