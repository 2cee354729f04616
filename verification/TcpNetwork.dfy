/** Whole runs of two hosts with full connection tables, and stream safety for each connection. */
module TcpNetwork {
  import opened Wrappers
  import opened TcpTypes
  import opened TcpBlock
  import opened TcpTable
  import opened TcpHosts
  import P = TcpPair

  // A host: its table, and per four-tuple what tcp_send accepted, what the receive handler got
  // and how many blocks were opened.
  datatype Host = Host(table: Table, accepted: map<Tuple, seq<byte>>, delivered: map<Tuple, seq<byte>>,
                       openings: map<Tuple, nat>)

  function Bytes(m: map<Tuple, seq<byte>>, tuple: Tuple): seq<byte> {
    if tuple in m then m[tuple] else []
  }

  function Openings(h: Host, tuple: Tuple): nat {
    if tuple in h.openings then h.openings[tuple] else 0
  }

  function EmptyHost(): Host {
    Host(Table(seq(TCP_MAX_CONNS, _ => ZERO_TCB), 0), map[], map[], map[])
  }

  function Record(h: Host, subject: Option<Tuple>, p: Progress): Host {
    match subject
    case None => h.(table := p.table)
    case Some(t) =>
      Host(p.table,
           h.accepted[t := Bytes(h.accepted, t) + p.accepted],
           h.delivered[t := Bytes(h.delivered, t) + Handed(p.taken)],
           h.openings[t := Openings(h, t) + (if p.newBlock then 1 else 0)])
  }

  datatype Net = Net(a: Host, b: Host, wireA: set<Datagram>, wireB: set<Datagram>)

  // A step of one host; third marks a datagram that some third host sent.
  datatype NetAction = NetAction(side: P.Side, action: TableAction, third: bool)

  predicate Arrived(act: NetAction, peerWire: set<Datagram>) {
    act.action.Receives? && !act.third ==> act.action.d in peerWire
  }

  function HostStep(h: Host, action: TableAction): Host {
    Record(h, Subject(h.table, action), TableStep(h.table, action))
  }

  function Sent(h: Host, action: TableAction): set<Datagram> {
    set d | d in TableStep(h.table, action).out
  }

  function NetStep(s: Net, act: NetAction): Net {
    match act.side
    case A => if !Arrived(act, s.wireB) then s
              else s.(a := HostStep(s.a, act.action), wireA := s.wireA + Sent(s.a, act.action))
    case B => if !Arrived(act, s.wireA) then s
              else s.(b := HostStep(s.b, act.action), wireB := s.wireB + Sent(s.b, act.action))
  }

  function NetRun(acts: seq<NetAction>): Net {
    if acts == [] then Net(EmptyHost(), EmptyHost(), {}, {})
    else NetStep(NetRun(acts[..|acts| - 1]), acts[|acts| - 1])
  }

  // ---- the two endpoints of one connection inside a run ----

  function Own(tuple: Tuple, side: P.Side): Tuple {
    if side == P.A then tuple else tuple.Mirror()
  }

  // A third host does not forge datagrams of the connection between the two.
  predicate NotForged(tuple: Tuple, act: NetAction) {
    act.third && act.action.Receives? ==> act.action.d.tuple != Own(tuple, act.side)
  }

  // The move of the connection `tuple` that a step is, if any.
  function MoveIn(tuple: Tuple, s: Net, act: NetAction): Option<P.Action> {
    var h, peerWire := if act.side == P.A then s.a else s.b, if act.side == P.A then s.wireB else s.wireA;
    if Arrived(act, peerWire) && Subject(h.table, act.action) == Some(Own(tuple, act.side))
    then Some(P.Action(act.side, MoveOf(h.table, act.action)))
    else None
  }

  function MovesOf(tuple: Tuple, acts: seq<NetAction>): seq<P.Action> {
    if acts == [] then []
    else
      var before := acts[..|acts| - 1];
      match MoveIn(tuple, NetRun(before), acts[|acts| - 1])
      case Some(move) => MovesOf(tuple, before) + [move]
      case None => MovesOf(tuple, before)
  }

  ghost predicate HostShows(h: Host, wire: set<Datagram>, tuple: Tuple, e: P.Endpoint, segments: set<Segment>) {
    && TableInv(h.table)
    && e.tuple == tuple && e.tcb == BlockOf(h.table, tuple)
    && e.accepted == Bytes(h.accepted, tuple) && e.delivered == Bytes(h.delivered, tuple)
    && e.incarnations == Openings(h, tuple)
    && (forall d <- wire :: d.tuple == tuple.Mirror() ==> d.segment in segments)
  }

  ghost predicate NetShows(tuple: Tuple, s: Net, p: P.Pair) {
    && HostShows(s.a, s.wireA, tuple, p.a, p.wireA)
    && HostShows(s.b, s.wireB, tuple.Mirror(), p.b, p.wireB)
  }

  lemma HostStepsAsEndpoint(h: Host, wire: set<Datagram>, e: P.Endpoint, segments: set<Segment>, action: TableAction)
    requires HostShows(h, wire, e.tuple, e, segments)
    ensures var h1, wire1 := HostStep(h, action), wire + Sent(h, action);
            if Subject(h.table, action) == Some(e.tuple)
            then var t := P.Act(e, MoveOf(h.table, action));
                 HostShows(h1, wire1, e.tuple, t.end, segments + P.Elements(t.out))
            else HostShows(h1, wire1, e.tuple, e, segments)
  {
    hide TableStep, P.Act, MoveOf, Subject, TableInv, BlockOf;
    TableStepKeepsInv(h.table, action);
    SendsOnlyForSubject(h.table, action);
    if Subject(h.table, action) == Some(e.tuple) {
      StepIsMove(h.table, action, e);
    } else {
      StepLeavesOthers(h.table, action, e.tuple);
    }
  }

  lemma NetStepsAsPair(tuple: Tuple, s: Net, p: P.Pair, act: NetAction)
    requires NetShows(tuple, s, p) && NotForged(tuple, act)
    ensures NetShows(tuple, NetStep(s, act),
              match MoveIn(tuple, s, act) case Some(move) => P.Step(p, move) case None => p)
  {
    hide TableStep, P.Act, TableInv, Record;
    if act.side == P.A {
      if Arrived(act, s.wireB) {
        HostStepsAsEndpoint(s.a, s.wireA, p.a, p.wireA, act.action);
      }
    } else {
      if Arrived(act, s.wireA) {
        HostStepsAsEndpoint(s.b, s.wireB, p.b, p.wireB, act.action);
      }
    }
  }

  // Seen through one four-tuple, every run of the hosts is a run of the endpoint pair.
  lemma {:induction false} NetRunsAsPair(tuple: Tuple, acts: seq<NetAction>)
    requires forall act <- acts :: NotForged(tuple, act)
    ensures NetShows(tuple, NetRun(acts), P.Run(tuple, MovesOf(tuple, acts)))
  {
    if acts == [] {
      EmptyTableOk();
    } else {
      var before, act := acts[..|acts| - 1], acts[|acts| - 1];
      assert act in acts && forall other <- before :: other in acts;
      NetRunsAsPair(tuple, before);
      var moves := MovesOf(tuple, before);
      NetStepsAsPair(tuple, NetRun(before), P.Run(tuple, moves), act);
      match MoveIn(tuple, NetRun(before), act)
      case Some(move) => assert (moves + [move])[..|moves|] == moves;
      case None =>
    }
  }

  // ---- stream safety on hosts with many connections ----

  // One incarnation of the connection per side, and fewer than 2^32 bytes in each direction.
  predicate CleanHosts(tuple: Tuple, s: Net) {
    && Openings(s.a, tuple) <= 1 && Openings(s.b, tuple.Mirror()) <= 1
    && |Bytes(s.a.accepted, tuple)| < TWO32 && |Bytes(s.b.accepted, tuple.Mirror())| < TWO32
  }

  // Local sends work when this connection receives; on other connections they may fail.
  predicate AnswersSent(tuple: Tuple, act: NetAction) {
    act.action.Receives? && act.action.d.tuple == Own(tuple, act.side) ==> act.action.sendOk
  }

  // For every run of two hosts and every connection between them: what each receive handler got is
  // a prefix of what the peer's tcp_send calls accepted, in order and once.
  lemma HostStreamsAreSafe(tuple: Tuple, acts: seq<NetAction>)
    requires forall act <- acts :: NotForged(tuple, act)
    requires forall act <- acts :: AnswersSent(tuple, act)
    requires CleanHosts(tuple, NetRun(acts))
    ensures var s := NetRun(acts);
            && Bytes(s.b.delivered, tuple.Mirror()) <= Bytes(s.a.accepted, tuple)
            && Bytes(s.a.delivered, tuple) <= Bytes(s.b.accepted, tuple.Mirror())
  {
    NetRunsAsPair(tuple, acts);
    SendsWorkInMoves(tuple, acts);
    P.DeliveryIsPrefix(tuple, MovesOf(tuple, acts));
  }

  // x and y are the blocks of the two ends; wireY holds what the host of y ever sent, and tuple is the
  // four-tuple as the host of x sees it.
  ghost predicate WindowIsSound(tuple: Tuple, x: Tcb, y: Tcb, wireY: set<Datagram>) {
    && (x.valid ==> x.sndUna <= x.sndNxt)
    && (x.valid && y.valid ==> x.sndUna <= y.rcvNxt <= x.sndNxt)
    && (y.valid ==> forall d <- wireY :: d.tuple == tuple ==> d.segment.ackNum <= y.rcvNxt)
  }

  // What holds of a block exactly until its side has used the last sequence number.
  predicate NotWrapped(t: Tcb) {
    t.valid ==> t.sndUna <= t.sndNxt
  }

  // The window of every connection is sound while neither end has wrapped, local send failures included.
  lemma HostWindowsAreSound(tuple: Tuple, acts: seq<NetAction>)
    requires forall act <- acts :: NotForged(tuple, act)
    requires CleanHosts(tuple, NetRun(acts))
    ensures var s := NetRun(acts);
            var x, y := BlockOf(s.a.table, tuple), BlockOf(s.b.table, tuple.Mirror());
            NotWrapped(x) && NotWrapped(y) ==>
              WindowIsSound(tuple, x, y, s.wireB) && WindowIsSound(tuple.Mirror(), y, x, s.wireA)
  {
    NetRunsAsPair(tuple, acts);
    P.WindowIsSound(tuple, MovesOf(tuple, acts));
  }

  // The block y has accepted the FIN of its peer.
  predicate GotFin(y: Tcb) {
    y.valid && (y.state.CloseWait? || y.state.LastAck? || y.state.TimeWait?)
  }

  // Whoever has accepted the peer's FIN has been handed the peer's whole stream.
  lemma HostFinMeansWholeStream(tuple: Tuple, acts: seq<NetAction>)
    requires forall act <- acts :: NotForged(tuple, act)
    requires forall act <- acts :: AnswersSent(tuple, act)
    requires CleanHosts(tuple, NetRun(acts))
    ensures var s := NetRun(acts);
            && (GotFin(BlockOf(s.b.table, tuple.Mirror())) ==>
                  Bytes(s.b.delivered, tuple.Mirror()) == Bytes(s.a.accepted, tuple))
            && (GotFin(BlockOf(s.a.table, tuple)) ==>
                  Bytes(s.a.delivered, tuple) == Bytes(s.b.accepted, tuple.Mirror()))
  {
    NetRunsAsPair(tuple, acts);
    SendsWorkInMoves(tuple, acts);
    P.WorkingSendsMissNothing(tuple, MovesOf(tuple, acts));
    P.FinMeansWholeStream(tuple, MovesOf(tuple, acts));
  }

  // When tcp_close succeeds on a connection, the peer's handler has been handed every byte sent on it.
  lemma HostCloseMeansAllReceived(tuple: Tuple, acts: seq<NetAction>, now: nat, sendOk: bool)
    requires forall act <- acts :: NotForged(tuple, act)
    requires forall act <- acts :: AnswersSent(tuple, act)
    requires CleanHosts(tuple, NetRun(acts))
    ensures var s := NetRun(acts);
            && (OnClose(BlockOf(s.a.table, tuple), now, sendOk).ok ==>
                  Bytes(s.b.delivered, tuple.Mirror()) == Bytes(s.a.accepted, tuple))
            && (OnClose(BlockOf(s.b.table, tuple.Mirror()), now, sendOk).ok ==>
                  Bytes(s.a.delivered, tuple) == Bytes(s.b.accepted, tuple.Mirror()))
  {
    NetRunsAsPair(tuple, acts);
    SendsWorkInMoves(tuple, acts);
    P.WorkingSendsMissNothing(tuple, MovesOf(tuple, acts));
    P.CloseMeansAllReceived(tuple, MovesOf(tuple, acts), now, sendOk);
  }

  lemma {:induction false} SendsWorkInMoves(tuple: Tuple, acts: seq<NetAction>)
    requires forall act <- acts :: AnswersSent(tuple, act)
    ensures forall action <- MovesOf(tuple, acts) :: action.move.Receive? ==> action.move.sendOk
  {
    if acts != [] {
      var before, act := acts[..|acts| - 1], acts[|acts| - 1];
      assert act in acts && forall other <- before :: other in acts;
      SendsWorkInMoves(tuple, before);
    }
  }

  // The table invariant holds after every run, with or without forged datagrams.
  lemma {:induction false} TablesStayConsistent(acts: seq<NetAction>)
    ensures TableInv(NetRun(acts).a.table) && TableInv(NetRun(acts).b.table)
  {
    if acts == [] {
      EmptyTableOk();
    } else {
      var s, act := NetRun(acts[..|acts| - 1]), acts[|acts| - 1];
      TablesStayConsistent(acts[..|acts| - 1]);
      TableStepKeepsInv(s.a.table, act.action);
      TableStepKeepsInv(s.b.table, act.action);
    }
  }
}
