/** Runs that leave the assumptions of TcpPair and break the stream. */
module TcpPairLimits {
  import opened TcpTypes
  import opened TcpPair

  const T := Tuple(1, 1, 2, 2)

  function Got(m: Segment): Move {
    Receive(m, 0, true, true)
  }

  const SYN_A := Segment(0, 0, SYN, [])
  const SYN_ACK_B := Segment(0, 1, SYN_ACK, [])
  const ACK_A := Segment(1, 1, ACK, [])
  const DATA_A := Segment(1, 1, PSH_ACK, [7])
  const ACK_B := Segment(1, 2, ACK, [])

  lemma RunSnoc(actions: seq<Action>, side: Side, move: Move) returns (longer: seq<Action>)
    ensures longer == actions + [Action(side, move)]
    ensures Run(T, longer) == Step(Run(T, actions), Action(side, move))
  {
    longer := actions + [Action(side, move)];
    assert longer[..|longer| - 1] == actions;
  }

  lemma NothingYet()
    ensures Run(T, []) == Pair(Fresh(T), Fresh(T.Mirror()), {}, {})
  {}

  // The three-way handshake of A's tcp_connect with a listener at B.
  lemma Handshake() returns (actions: seq<Action>)
    ensures var s := Run(T, actions);
            && s.a == Fresh(T).(tcb := s.a.tcb, incarnations := 1, synced := true)
            && s.b == Fresh(T.Mirror()).(tcb := s.b.tcb, incarnations := 1, synced := true)
            && s.a.tcb == Tcb(true, T, Established, 1, 1, 1, s.a.tcb.slot, 0) && s.a.tcb.slot.pkt.None?
            && s.b.tcb == Tcb(true, T.Mirror(), Established, 1, 1, 1, s.b.tcb.slot, 0) && s.b.tcb.slot.pkt.None?
            && {SYN_A, ACK_A} <= s.wireA
    ensures forall action <- actions :: action.move.Receive? ==> action.move.sendOk
  {
    NothingYet();
    hide Run;
    actions := RunSnoc([], A, Connect(0, true));
    assert SYN_A in Run(T, actions).wireA;
    actions := RunSnoc(actions, B, Got(SYN_A));
    assert SYN_ACK_B in Run(T, actions).wireB;
    actions := RunSnoc(actions, A, Got(SYN_ACK_B));
    assert ACK_A in Run(T, actions).wireA;
    actions := RunSnoc(actions, B, Got(ACK_A));
  }

  // Between two transfers: n bytes went from A to B and are acknowledged.
  ghost predicate Quiet(s: Pair, n: nat) {
    && 1 + n < TWO32
    && s.a.tcb == Tcb(true, T, Established, 1 + n, 1 + n, 1, s.a.tcb.slot, 0) && s.a.tcb.slot.pkt.None?
    && s.b.tcb == Tcb(true, T.Mirror(), Established, 1, 1, 1 + n, s.b.tcb.slot, 0) && s.b.tcb.slot.pkt.None?
    && s.a.incarnations == 1 && s.b.incarnations == 1 && s.b.tuple == T.Mirror()
    && |s.a.accepted| == n && s.b.accepted == [] && s.b.delivered == s.a.accepted
    && {SYN_A, ACK_A} <= s.wireA
  }

  // A sends one byte, B takes it, A sees the acknowledgement.
  lemma TransferOne(actions: seq<Action>, n: nat) returns (longer: seq<Action>)
    requires Quiet(Run(T, actions), n) && n + 2 < TWO32
    requires forall action <- actions :: action.move.Receive? ==> action.move.sendOk
    ensures Quiet(Run(T, longer), n + 1)
    ensures Run(T, longer).a.accepted == Run(T, actions).a.accepted + [7]
    ensures Run(T, actions).wireA + {Segment(1 + n, 1, PSH_ACK, [7])} <= Run(T, longer).wireA
    ensures forall action <- longer :: action.move.Receive? ==> action.move.sendOk
  {
    hide Run;
    assert [7][..1] == [7];
    longer := RunSnoc(actions, A, SendData([7], 0, true));
    var data, ack := Segment(1 + n, 1, PSH_ACK, [7]), Segment(1, 2 + n, ACK, []);
    assert data in Run(T, longer).wireA;
    longer := RunSnoc(longer, B, Got(data));
    assert ack in Run(T, longer).wireB;
    longer := RunSnoc(longer, A, Got(ack));
  }

  lemma {:induction false} Transfers(n: nat) returns (actions: seq<Action>)
    requires 1 + n < TWO32
    ensures Quiet(Run(T, actions), n) && (n > 0 ==> DATA_A in Run(T, actions).wireA)
    ensures n == 1 ==> Run(T, actions).a.accepted == [7]
    ensures forall action <- actions :: action.move.Receive? ==> action.move.sendOk
  {
    if n == 0 {
      actions := Handshake();
    } else {
      var before := Transfers(n - 1);
      actions := TransferOne(before, n - 1);
    }
  }

  // A closes; B has accepted the FIN and A has seen that.
  lemma HalfClose() returns (actions: seq<Action>)
    ensures var s := Run(T, actions);
            && s.a.tcb == Tcb(true, T, FinWait2, 3, 3, 1, s.a.tcb.slot, 0) && s.a.tcb.slot.pkt.None?
            && s.b.tcb == Tcb(true, T.Mirror(), CloseWait, 1, 1, 3, s.b.tcb.slot, 0) && s.b.tcb.slot.pkt.None?
            && s.b.tuple == T.Mirror() && s.a.accepted == [7] && s.b.accepted == [] && s.b.delivered == [7]
            && s.a.incarnations == 1 && s.b.incarnations == 1
            && {SYN_A, ACK_A, DATA_A} <= s.wireA
    ensures forall action <- actions :: action.move.Receive? ==> action.move.sendOk
  {
    hide Run;
    actions := Transfers(1);
    actions := RunSnoc(actions, A, CloseCall(0, true));
    var finA := Segment(2, 1, FIN_ACK, []);
    assert finA in Run(T, actions).wireA;
    actions := RunSnoc(actions, B, Got(finA));
    var ackFinA := Segment(1, 3, ACK, []);
    assert ackFinA in Run(T, actions).wireB;
    actions := RunSnoc(actions, A, Got(ackFinA));
  }

  // B closes too; B's block is released by the last acknowledgement.
  lemma Teardown() returns (actions: seq<Action>)
    ensures var s := Run(T, actions);
            && s.a.tcb.state == TimeWait && s.b.tcb == ZERO_TCB
            && s.b.tuple == T.Mirror() && s.a.accepted == [7] && s.b.accepted == [] && s.b.delivered == [7]
            && s.a.incarnations == 1 && s.b.incarnations == 1
            && {SYN_A, ACK_A, DATA_A} <= s.wireA
    ensures forall action <- actions :: action.move.Receive? ==> action.move.sendOk
  {
    hide Run;
    actions := HalfClose();
    actions := RunSnoc(actions, B, CloseCall(0, true));
    var finB := Segment(1, 3, FIN_ACK, []);
    assert finB in Run(T, actions).wireB;
    actions := RunSnoc(actions, A, Got(finB));
    var ackFinB := Segment(3, 2, ACK, []);
    assert ackFinB in Run(T, actions).wireA;
    actions := RunSnoc(actions, B, Got(ackFinB));
  }

  // One incarnation is necessary: with the initial sequence number fixed at 0, late duplicates of
  // A's SYN, handshake ACK and data reopen the connection at B's listener, and B delivers the byte again.
  lemma SecondIncarnationRedelivers() returns (actions: seq<Action>)
    ensures forall action <- actions :: action.move.Receive? ==> action.move.sendOk
    ensures Run(T, actions).a.incarnations == 1 && Run(T, actions).b.incarnations == 2
    ensures Run(T, actions).a.accepted == [7] && Run(T, actions).b.accepted == []
    ensures Run(T, actions).b.delivered == [7, 7]
  {
    hide Run;
    actions := Teardown();
    actions := RunSnoc(actions, B, Got(SYN_A));
    actions := RunSnoc(actions, B, Got(ACK_A));
    actions := RunSnoc(actions, B, Got(DATA_A));
  }

  // After 2^32 - 2 bytes, a send across the wrap that B takes brings its rcv_nxt back to 1.
  lemma SendAcrossWrap() returns (actions: seq<Action>)
    ensures forall action <- actions :: action.move.Receive? ==> action.move.sendOk
    ensures var s := Run(T, actions);
            && s.a.incarnations == 1 && s.b.incarnations == 1 && s.b.tuple == T.Mirror()
            && |s.a.accepted| == TWO32 && s.b.accepted == [] && s.b.delivered == s.a.accepted
            && s.b.tcb == Tcb(true, T.Mirror(), Established, 1, 1, 1, s.b.tcb.slot, 0)
            && DATA_A in s.wireA
  {
    hide Run;
    actions := Transfers(TWO32 - 2);
    assert [8, 9][..2] == [8, 9];
    actions := RunSnoc(actions, A, SendData([8, 9], 0, true));
    var last := Segment(TWO32 - 1, 1, PSH_ACK, [8, 9]);
    assert last in Run(T, actions).wireA;
    actions := RunSnoc(actions, B, Got(last));
  }

  // No wrap is necessary: then a late duplicate of the first data segment is delivered again, in one
  // incarnation per side and with working local sends.
  lemma WrapRedelivers() returns (actions: seq<Action>)
    ensures forall action <- actions :: action.move.Receive? ==> action.move.sendOk
    ensures Run(T, actions).a.incarnations == 1 && Run(T, actions).b.incarnations == 1
    ensures |Run(T, actions).a.accepted| == TWO32 && Run(T, actions).b.accepted == []
    ensures |Run(T, actions).b.delivered| == TWO32 + 1
  {
    hide Run;
    actions := SendAcrossWrap();
    actions := RunSnoc(actions, B, Got(DATA_A));
  }

  // A working local send is necessary: rcv_nxt moves before the ACK is sent, so a failed send
  // loses the byte for good and delivery goes on behind the hole.
  lemma FailedAckSkipsBytes() returns (actions: seq<Action>)
    ensures Clean(Run(T, actions))
    ensures Run(T, actions).a.accepted == [7, 8] && Run(T, actions).b.delivered == [8]
  {
    hide Run;
    actions := Handshake();
    assert [7][..1] == [7];
    actions := RunSnoc(actions, A, SendData([7], 0, true));
    assert DATA_A in Run(T, actions).wireA;
    actions := RunSnoc(actions, B, Receive(DATA_A, 0, true, false));
    actions := RunSnoc(actions, A, Resend(0, true));
    actions := RunSnoc(actions, B, Got(DATA_A));
    assert ACK_B in Run(T, actions).wireB;
    actions := RunSnoc(actions, A, Got(ACK_B));
    assert [8][..1] == [8];
    actions := RunSnoc(actions, A, SendData([8], 0, true));
    var next := Segment(2, 1, PSH_ACK, [8]);
    assert next in Run(T, actions).wireA;
    actions := RunSnoc(actions, B, Got(next));
  }

  // ---- how far stream safety reaches ----

  // A run in which local sends of answers work, with at most k incarnations per side and at most n bytes
  // accepted by each.
  ghost predicate Within(tuple: Tuple, actions: seq<Action>, k: nat, n: nat) {
    var s := Run(tuple, actions);
    && (forall action <- actions :: action.move.Receive? ==> action.move.sendOk)
    && s.a.incarnations <= k && s.b.incarnations <= k && |s.a.accepted| <= n && |s.b.accepted| <= n
  }

  ghost predicate StreamsArePrefixes(s: Pair) {
    s.b.delivered <= s.a.accepted && s.a.delivered <= s.b.accepted
  }

  lemma WithinIsSafe(tuple: Tuple, actions: seq<Action>, k: nat, n: nat)
    requires k <= 1 && n < TWO32 && Within(tuple, actions, k, n)
    ensures StreamsArePrefixes(Run(tuple, actions))
  {
    hide Run;
    DeliveryIsPrefix(tuple, actions);
  }

  // Exactly with one incarnation per side: what is delivered is a prefix of what was accepted in all
  // wrap-free runs of at most k incarnations if and only if k is at most 1.
  lemma SafeIffOneIncarnation(k: nat)
    ensures (forall tuple, actions :: Within(tuple, actions, k, TWO32 - 1) ==> StreamsArePrefixes(Run(tuple, actions)))
            <==> k <= 1
  {
    hide Run, Within, StreamsArePrefixes;
    if k <= 1 {
      forall tuple, actions | Within(tuple, actions, k, TWO32 - 1) ensures StreamsArePrefixes(Run(tuple, actions)) {
        WithinIsSafe(tuple, actions, k, TWO32 - 1);
      }
    } else {
      var actions := SecondIncarnationBreaks(k);
    }
  }

  lemma SecondIncarnationBreaks(k: nat) returns (actions: seq<Action>)
    requires k >= 2
    ensures Within(T, actions, k, TWO32 - 1) && !StreamsArePrefixes(Run(T, actions))
  {
    hide Run;
    actions := SecondIncarnationRedelivers();
  }

  // Exactly below 2^32 bytes: the same in all runs of one incarnation per side with at most n bytes
  // accepted by each, if and only if n is less than 2^32.
  lemma SafeIffFewBytes(n: nat)
    ensures (forall tuple, actions :: Within(tuple, actions, 1, n) ==> StreamsArePrefixes(Run(tuple, actions)))
            <==> n < TWO32
  {
    hide Run, Within, StreamsArePrefixes;
    if n < TWO32 {
      forall tuple, actions | Within(tuple, actions, 1, n) ensures StreamsArePrefixes(Run(tuple, actions)) {
        WithinIsSafe(tuple, actions, 1, n);
      }
    } else {
      var actions := WrapBreaks(n);
    }
  }

  lemma WrapBreaks(n: nat) returns (actions: seq<Action>)
    requires n >= TWO32
    ensures Within(T, actions, 1, n) && !StreamsArePrefixes(Run(T, actions))
  {
    hide Run;
    actions := WrapRedelivers();
  }
}
