/** Two hosts, each with a whole connection table of 64 blocks, exchanging datagrams of any number of
    connections. Every step of such a host is, for each four-tuple, either no step or one move of the
    endpoint that TcpPair describes; stream safety therefore holds per connection on real tables. */
module TcpHosts {
  import opened Slots
  import opened Wrappers
  import opened TcpTypes
  import opened TcpBlock
  import opened TcpTable
  import P = TcpPair

  // ---- the table invariant ----

  function Used(): Tcb -> bool {
    (t: Tcb) => t.valid
  }

  ghost predicate TableInv(s: Table) {
    && |s.tcbs| == TCP_MAX_CONNS
    && s.count == Count(s.tcbs, Used())
    && (forall i :: 0 <= i < |s.tcbs| && !s.tcbs[i].valid ==> s.tcbs[i] == ZERO_TCB)
    && (forall i :: 0 <= i < |s.tcbs| && s.tcbs[i].valid && s.tcbs[i].state == Listen ==> s.tcbs[i].slot == FREE_SLOT)
    && (forall i, j :: 0 <= i < j < |s.tcbs| && s.tcbs[i].valid && s.tcbs[j].valid ==> Distinct(s.tcbs[i], s.tcbs[j]))
  }

  // Connections differ in their four-tuple, listeners in their local address and port.
  predicate Distinct(t: Tcb, u: Tcb) {
    (t.state == Listen) == (u.state == Listen) ==>
      if t.state == Listen
      then (t.tuple.localIp, t.tuple.localPort) != (u.tuple.localIp, u.tuple.localPort)
      else t.tuple != u.tuple
  }

  // A block may change in place as long as it stays the same connection or listener.
  predicate SameIdentity(t: Tcb, u: Tcb) {
    || u == ZERO_TCB
    || (u.valid && u.tuple == t.tuple && (u.state == Listen) == (t.state == Listen)
        && (t.state == Listen ==> u.slot == t.slot))
  }

  lemma EmptyTableOk()
    ensures TableInv(Table(seq(TCP_MAX_CONNS, _ => ZERO_TCB), 0))
  {
    CountBounds(seq(TCP_MAX_CONNS, _ => ZERO_TCB), Used());
  }

  lemma ReplaceKeepsInv(s: Table, i: nat, t: Tcb)
    requires TableInv(s) && i < |s.tcbs| && (if s.tcbs[i].valid then SameIdentity(s.tcbs[i], t) else t == s.tcbs[i])
    ensures TableInv(Replace(s, i, t))
  {
    CountUpdate(s.tcbs, Used(), i, t);
    if s.tcbs[i].valid {
      CountBounds(s.tcbs, Used());
    }
  }

  lemma InstallKeepsInv(s: Table, t: Tcb)
    requires TableInv(s) && t.valid && Install(s, t).Some? && (t.state == Listen ==> t.slot == FREE_SLOT)
    requires forall k :: 0 <= k < |s.tcbs| && s.tcbs[k].valid ==> Distinct(s.tcbs[k], t) && Distinct(t, s.tcbs[k])
    ensures TableInv(Install(s, t).value.0)
  {
    CountUpdate(s.tcbs, Used(), First(s.tcbs, Unused()).value, t);
  }

  // ---- one step of a table ----

  // What is done to the block that a `Tcb *` points to.
  datatype SlotCall =
    | Sends(data: seq<byte>, now: nat, sendOk: bool)
    | Closes(now: nat, sendOk: bool)
    | Resends(now: nat, sendOk: bool)
    | Expires

  datatype TableAction =
    | Listens(ip: u32, port: u16)
    | Connects(tuple: Tuple, now: nat, sendOk: bool)
    | Receives(d: Datagram, now: nat, sendOk: bool)
    | OnSlot(slot: nat, call: SlotCall)

  // What a step did: the new table, what it sent, and what became of the connection it was about.
  datatype Progress = Progress(table: Table, out: seq<Datagram>, newBlock: bool, accepted: seq<byte>, taken: Taken)

  function Idle(s: Table): Progress {
    Progress(s, [], false, [], Nothing)
  }

  // The four-tuple a step is about, if it is about a connection.
  function Subject(s: Table, a: TableAction): Option<Tuple> {
    match a
    case Listens(_, _) => None
    case Connects(tuple, _, _) => Some(tuple)
    case Receives(d, _, _) => Some(d.tuple)
    case OnSlot(i, _) =>
      if i < |s.tcbs| && s.tcbs[i].valid && s.tcbs[i].state != Listen then Some(s.tcbs[i].tuple) else None
  }

  function SlotOutcome(t: Tcb, call: SlotCall): Outcome {
    match call
    case Sends(data, now, ok) => OnSend(t, data, now, ok)
    case Closes(now, ok) => OnClose(t, now, ok)
    case Resends(now, ok) => OnRetransmit(t, now, ok)
    case Expires => Outcome(OnTimeWaitExpiry(t), [], [], true)
  }

  function TableStep(s: Table, a: TableAction): Progress {
    match a
    case Listens(ip, port) =>
      (match ListenOn(s, ip, port)
       case None => Idle(s)
       case Some((s1, _)) => Idle(s1))
    case Connects(tuple, now, ok) =>
      var r := ConnectTo(s, tuple, now, ok);
      Progress(r.table, r.out, r.ok, [], Nothing)
    case Receives(d, now, ok) =>
      var r := Receive(s, d, now, ok);
      Progress(r.table, r.out, First(s.tcbs, Exact(d.tuple)).None? && r.slot.Some?, [], r.taken)
    case OnSlot(i, call) =>
      if i >= |s.tcbs| then Idle(s)
      else
        var r := Call(s, i, SlotOutcome(s.tcbs[i], call));
        Progress(r.table, r.out, false, r.accepted, Nothing)
  }

  lemma SegmentKeepsIdentity(t: Tcb, m: Segment, sendOk: bool)
    requires t.valid
    ensures SameIdentity(t, OnSegment(t, m, sendOk).tcb)
  {}

  lemma CallKeepsIdentity(t: Tcb, call: SlotCall)
    ensures var r := SlotOutcome(t, call);
            if t.valid && t.state != Listen then SameIdentity(t, r.tcb)
            else t.slot == FREE_SLOT ==> r.tcb == t && r.out == [] && r.accepted == []
  {}

  // Every step keeps the table invariant: the count is the number of blocks in use, no two
  // connections share a four-tuple and no two listeners share address and port.
  lemma TableStepKeepsInv(s: Table, a: TableAction)
    requires TableInv(s)
    ensures TableInv(TableStep(s, a).table)
  {
    match a
    case Listens(ip, port) =>
      if ListenOn(s, ip, port).Some? {
        InstallKeepsInv(s, ZERO_TCB.(valid := true, tuple := Tuple(ip, port, 0, 0), state := Listen));
      }
    case Connects(tuple, now, ok) =>
      if ConnectTo(s, tuple, now, ok).ok {
        InstallKeepsInv(s, OpenActive(tuple, now, ok).value.0);
      }
    case Receives(d, now, ok) =>
      match First(s.tcbs, Exact(d.tuple)) {
        case Some(i) =>
          SegmentKeepsIdentity(s.tcbs[i], d.segment, ok);
          ReplaceKeepsInv(s, i, OnSegment(s.tcbs[i], d.segment, ok).tcb);
        case None =>
          if Receive(s, d, now, ok).slot.Some? {
            InstallKeepsInv(s, OpenPassive(d.tuple, d.segment.seqNum, now, ok).value.0);
          }
      }
    case OnSlot(i, call) =>
      if i < |s.tcbs| {
        CallKeepsIdentity(s.tcbs[i], call);
        ReplaceKeepsInv(s, i, SlotOutcome(s.tcbs[i], call).tcb);
      }
  }

  // ---- the connection with a given four-tuple ----

  // tcp_find_exact does not depend on the order of the slots: it finds whichever slot matches.
  lemma FindExactIsOrderFree(s: Table, tuple: Tuple, i: nat)
    requires TableInv(s)
    ensures First(s.tcbs, Exact(tuple)) == Some(i) <==> i < |s.tcbs| && Exact(tuple)(s.tcbs[i])
  {}

  function BlockOf(s: Table, tuple: Tuple): Tcb {
    match First(s.tcbs, Exact(tuple))
    case Some(i) => s.tcbs[i]
    case None => ZERO_TCB
  }

  lemma BlockOfReplaced(s: Table, i: nat, t: Tcb, tuple: Tuple)
    requires TableInv(s) && i < |s.tcbs| && s.tcbs[i].valid && SameIdentity(s.tcbs[i], t)
    ensures BlockOf(Replace(s, i, t), tuple) == if Exact(tuple)(s.tcbs[i]) then t else BlockOf(s, tuple)
  {
    var s1 := Replace(s, i, t);
    ReplaceKeepsInv(s, i, t);
    match First(s.tcbs, Exact(tuple))
    case Some(k) =>
      if k != i { FindExactIsOrderFree(s1, tuple, k); } else if t.valid { FindExactIsOrderFree(s1, tuple, i); }
    case None =>
  }

  lemma BlockOfInstalled(s: Table, t: Tcb, tuple: Tuple)
    requires TableInv(s) && t.valid && Install(s, t).Some? && TableInv(Install(s, t).value.0)
    ensures BlockOf(Install(s, t).value.0, tuple) == if Exact(tuple)(t) then t else BlockOf(s, tuple)
  {
    var (s1, i) := Install(s, t).value;
    if Exact(tuple)(t) {
      FindExactIsOrderFree(s1, tuple, i);
    } else if First(s.tcbs, Exact(tuple)).Some? {
      FindExactIsOrderFree(s1, tuple, First(s.tcbs, Exact(tuple)).value);
    }
  }

  // ---- one table step is one move of one endpoint ----

  function MoveOf(s: Table, a: TableAction): P.Move
    requires Subject(s, a).Some?
  {
    var room := First(s.tcbs, Unused()).Some?;
    match a
    case Connects(_, now, ok) => P.Connect(now, ok && room)
    case Receives(d, now, ok) =>
      P.Receive(d.segment, now, First(s.tcbs, Listening(d.tuple.localIp, d.tuple.localPort)).Some? && room, ok)
    case OnSlot(_, Sends(data, now, ok)) => P.SendData(data, now, ok)
    case OnSlot(_, Closes(now, ok)) => P.CloseCall(now, ok)
    case OnSlot(_, Resends(now, ok)) => P.Resend(now, ok)
    case OnSlot(_, Expires) => P.TimeWaitOver
  }

  function Handed(taken: Taken): seq<byte> {
    match taken
    case Data(bytes, true) => bytes
    case _ => []
  }

  // The endpoint e, which stands for the connection e.tuple of table s, does what the table does.
  ghost predicate Mirrors(s: Table, p: Progress, e: P.Endpoint, t: P.Turn) {
    && t.end.tuple == e.tuple && t.end.tcb == BlockOf(p.table, e.tuple)
    && p.out == Outgoing(e.tuple, t.out)
    && t.end.accepted == e.accepted + p.accepted
    && t.end.delivered == e.delivered + Handed(p.taken)
    && t.end.incarnations == e.incarnations + (if p.newBlock then 1 else 0)
  }

  lemma ConnectsIsMove(s: Table, a: TableAction, e: P.Endpoint)
    requires TableInv(s) && e.tcb == BlockOf(s, e.tuple) && a.Connects? && a.tuple == e.tuple
    ensures Mirrors(s, TableStep(s, a), e, P.Act(e, MoveOf(s, a)))
  {
    TableStepKeepsInv(s, a);
    if TableStep(s, a).newBlock {
      BlockOfInstalled(s, OpenActive(a.tuple, a.now, a.sendOk).value.0, e.tuple);
    }
  }

  lemma AbsorbHands(e: P.Endpoint, r: Reaction)
    ensures var e1 := P.Absorb(e, r);
            && e1.tuple == e.tuple && e1.tcb == r.tcb && e1.accepted == e.accepted
            && e1.delivered == e.delivered + Handed(r.taken) && e1.incarnations == e.incarnations
  {}

  lemma BlockReceives(s: Table, d: Datagram, now: nat, sendOk: bool, i: nat)
    requires TableInv(s) && First(s.tcbs, Exact(d.tuple)) == Some(i)
    ensures var r := OnSegment(BlockOf(s, d.tuple), d.segment, sendOk);
            var p := TableStep(s, Receives(d, now, sendOk));
            && p == Progress(Replace(s, i, r.tcb), Outgoing(d.tuple, r.out), false, [], r.taken)
            && forall tuple :: BlockOf(p.table, tuple) == if tuple == d.tuple then r.tcb else BlockOf(s, tuple)
  {
    var r := OnSegment(s.tcbs[i], d.segment, sendOk);
    SegmentKeepsIdentity(s.tcbs[i], d.segment, sendOk);
    forall tuple ensures BlockOf(Replace(s, i, r.tcb), tuple) == if tuple == d.tuple then r.tcb else BlockOf(s, tuple) {
      BlockOfReplaced(s, i, r.tcb, tuple);
    }
  }

  lemma SegmentIsMove(s: Table, a: TableAction, e: P.Endpoint, i: nat)
    requires TableInv(s) && e.tcb == BlockOf(s, e.tuple) && a.Receives? && a.d.tuple == e.tuple
    requires First(s.tcbs, Exact(e.tuple)) == Some(i)
    ensures Mirrors(s, TableStep(s, a), e, P.Act(e, MoveOf(s, a)))
  {
    hide OnSegment;
    BlockReceives(s, a.d, a.now, a.sendOk, i);
    AbsorbHands(e, OnSegment(e.tcb, a.d.segment, a.sendOk));
  }

  lemma SynIsMove(s: Table, a: TableAction, e: P.Endpoint)
    requires TableInv(s) && e.tcb == BlockOf(s, e.tuple) && a.Receives? && a.d.tuple == e.tuple
    requires First(s.tcbs, Exact(e.tuple)).None?
    ensures Mirrors(s, TableStep(s, a), e, P.Act(e, MoveOf(s, a)))
  {
    hide First, OnSegment, BlockInv;
    TableStepKeepsInv(s, a);
    if TableStep(s, a).newBlock {
      BlockOfInstalled(s, OpenPassive(e.tuple, a.d.segment.seqNum, a.now, a.sendOk).value.0, e.tuple);
    }
  }

  lemma OnSlotIsMove(s: Table, a: TableAction, e: P.Endpoint)
    requires TableInv(s) && e.tcb == BlockOf(s, e.tuple) && a.OnSlot? && Subject(s, a) == Some(e.tuple)
    ensures Mirrors(s, TableStep(s, a), e, P.Act(e, MoveOf(s, a)))
  {
    var r := SlotOutcome(s.tcbs[a.slot], a.call);
    FindExactIsOrderFree(s, e.tuple, a.slot);
    assert BlockOf(Replace(s, a.slot, r.tcb), e.tuple) == r.tcb by {
      CallKeepsIdentity(s.tcbs[a.slot], a.call);
      BlockOfReplaced(s, a.slot, r.tcb, e.tuple);
    }
    SlotMove(e, a.call);
  }

  lemma SlotMove(e: P.Endpoint, call: SlotCall)
    ensures var r := SlotOutcome(e.tcb, call);
            var t := P.Act(e, match call
              case Sends(data, now, ok) => P.SendData(data, now, ok)
              case Closes(now, ok) => P.CloseCall(now, ok)
              case Resends(now, ok) => P.Resend(now, ok)
              case Expires => P.TimeWaitOver);
            && t.end.tuple == e.tuple && t.end.tcb == r.tcb && t.out == r.out
            && t.end.accepted == e.accepted + r.accepted
            && t.end.delivered == e.delivered && t.end.incarnations == e.incarnations
  {}

  lemma StepIsMove(s: Table, a: TableAction, e: P.Endpoint)
    requires TableInv(s) && e.tcb == BlockOf(s, e.tuple) && Subject(s, a) == Some(e.tuple)
    ensures Mirrors(s, TableStep(s, a), e, P.Act(e, MoveOf(s, a)))
  {
    match a
    case Connects(_, _, _) => ConnectsIsMove(s, a, e);
    case Receives(_, _, _) =>
      match First(s.tcbs, Exact(e.tuple)) {
        case Some(i) => SegmentIsMove(s, a, e, i);
        case None => SynIsMove(s, a, e);
      }
    case OnSlot(_, _) => OnSlotIsMove(s, a, e);
  }

  lemma SendsOnlyForSubject(s: Table, a: TableAction)
    requires TableInv(s)
    ensures forall d <- TableStep(s, a).out :: Subject(s, a).Some? && d.tuple == Subject(s, a).value.Mirror()
  {
    if a.OnSlot? && a.slot < |s.tcbs| {
      CallKeepsIdentity(s.tcbs[a.slot], a.call);
    }
  }

  // Steps about one connection leave every other connection alone.
  lemma StepLeavesOthers(s: Table, a: TableAction, tuple: Tuple)
    requires TableInv(s) && Subject(s, a) != Some(tuple)
    ensures BlockOf(TableStep(s, a).table, tuple) == BlockOf(s, tuple)
  {
    TableStepKeepsInv(s, a);
    match a
    case Listens(ip, port) =>
      if ListenOn(s, ip, port).Some? {
        BlockOfInstalled(s, ZERO_TCB.(valid := true, tuple := Tuple(ip, port, 0, 0), state := Listen), tuple);
      }
    case Connects(other, now, ok) =>
      if TableStep(s, a).newBlock {
        BlockOfInstalled(s, OpenActive(other, now, ok).value.0, tuple);
      }
    case Receives(d, now, ok) =>
      match First(s.tcbs, Exact(d.tuple)) {
        case Some(i) =>
          BlockReceives(s, d, now, ok, i);
        case None =>
          if TableStep(s, a).newBlock {
            BlockOfInstalled(s, OpenPassive(d.tuple, d.segment.seqNum, now, ok).value.0, tuple);
          }
      }
    case OnSlot(i, call) =>
      if i < |s.tcbs| {
        CallKeepsIdentity(s.tcbs[i], call);
        if Subject(s, a).Some? {
          BlockOfReplaced(s, i, SlotOutcome(s.tcbs[i], call).tcb, tuple);
        } else {
          assert TableStep(s, a).table == s;
        }
      }
  }
}
