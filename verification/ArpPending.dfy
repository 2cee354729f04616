/** The packets that wait for an address in src/protocols/arp_cache.c: a bounded array of slots,
    each owning one payload. Packets and interfaces are identities; whether an ip_send works is
    given per slot, since it depends on code outside the queue. */
module ArpPending {
  import opened Slots
  import opened Wrappers
  import opened Bytes

  const ARP_MAX_PENDING_PACKETS := 32

  type Handle = nat

  // The arguments that ip_send gets, apart from the hardware address of the flush.
  datatype Job = Job(iface: Handle, srcIp: u32, dstIp: u32, protocol: byte, payload: Handle)

  datatype Slot = Slot(valid: bool, targetIp: u32, srcIp: u32, dstIp: u32, protocol: byte,
                       iface: Option<Handle>, payload: Option<Handle>)
  {
    function ToJob(): Job {
      Job(Get(iface), srcIp, dstIp, protocol, Get(payload))
    }

    function Emptied(): Slot {
      this.(valid := false, iface := None, payload := None)
    }
  }

  const ZERO_SLOT := Slot(false, 0, 0, 0, 0, None, None)

  function Get(h: Option<Handle>): Handle {
    if h.Some? then h.value else 0
  }

  function Used(): Slot -> bool {
    (s: Slot) => s.valid
  }

  function Free(): Slot -> bool {
    (s: Slot) => !s.valid
  }

  // A slot in use waits for an address and owns a payload.
  predicate SlotsOk(slots: seq<Slot>) {
    forall i :: 0 <= i < |slots| && slots[i].valid ==>
      slots[i].targetIp != 0 && slots[i].iface.Some? && slots[i].payload.Some?
  }

  datatype Queue = Queue(slots: seq<Slot>, count: int)

  // A request to enqueue; null pointers are None.
  datatype Request = Request(iface: Option<Handle>, target: u32, srcIp: u32, dstIp: u32, protocol: byte,
                             payload: Option<Handle>)

  // arp_pending_enqueue: the request goes into the first free slot; None is return -1.
  function Enqueue(q: Queue, r: Request): Option<Queue> {
    if r.iface.None? || r.target == 0 || r.payload.None? then None
    else match First(q.slots, Free())
      case None => None
      case Some(i) =>
        Some(Queue(q.slots[i := Slot(true, r.target, r.srcIp, r.dstIp, r.protocol, r.iface, r.payload)], q.count + 1))
  }

  predicate Waits(slot: Slot, target: u32) {
    slot.valid && slot.targetIp == target
  }

  function AfterFlush(slots: seq<Slot>, target: u32, k: nat): (r: seq<Slot>)
    requires k <= |slots|
    ensures |r| == |slots| && forall i :: 0 <= i < |r| ==>
              r[i] == if i < k && Waits(slots[i], target) then slots[i].Emptied() else slots[i]
  {
    seq(|slots|, i requires 0 <= i < |slots| =>
        if i < k && Waits(slots[i], target) then slots[i].Emptied() else slots[i])
  }

  // The waiting jobs among the first k slots whose ip_send answered ok, in slot order.
  function Jobs(slots: seq<Slot>, target: u32, works: seq<bool>, ok: bool, k: nat): seq<Job>
    requires k <= |slots| == |works|
  {
    if k == 0 then []
    else Jobs(slots, target, works, ok, k - 1)
         + (if Waits(slots[k - 1], target) && works[k - 1] == ok then [slots[k - 1].ToJob()] else [])
  }

  datatype Flushed = Flushed(queue: Queue, sent: seq<Job>, freed: seq<Job>)

  // arp_pending_flush; works[i] is the answer of ip_send for slot i.
  function Flush(q: Queue, target: u32, works: seq<bool>): Flushed
    requires |works| == |q.slots|
  {
    if target == 0 then Flushed(q, [], [])
    else
      var n := |q.slots|;
      var sent, freed := Jobs(q.slots, target, works, true, n), Jobs(q.slots, target, works, false, n);
      Flushed(Queue(AfterFlush(q.slots, target, n), q.count - |sent| - |freed|), sent, freed)
  }

  // ---- ownership ----

  // A job together with the address it waits for.
  datatype Parcel = Parcel(target: u32, job: Job)

  // What is booked of a parcel: all of it, or the payload alone.
  function Whole(p: Parcel): Parcel {
    p
  }

  function PayloadOf(p: Parcel): Handle {
    p.job.payload
  }

  // What the queue holds, and what a list of jobs for one target amounts to.
  function Held<T(==)>(slots: seq<Slot>, f: Parcel -> T): multiset<T> {
    if |slots| == 0 then multiset{}
    else
      var slot := slots[|slots| - 1];
      Held(slots[..|slots| - 1], f)
      + (if slot.valid then multiset{f(Parcel(slot.targetIp, slot.ToJob()))} else multiset{})
  }

  function Booked<T(==)>(target: u32, jobs: seq<Job>, f: Parcel -> T): multiset<T> {
    if |jobs| == 0 then multiset{}
    else Booked(target, jobs[..|jobs| - 1], f) + multiset{f(Parcel(target, jobs[|jobs| - 1]))}
  }

  // pending_count is the number of slots in use.
  ghost predicate QueueOk(q: Queue) {
    |q.slots| == ARP_MAX_PENDING_PACKETS && SlotsOk(q.slots) && q.count == Count(q.slots, Used())
  }

  lemma {:induction false} HeldUpdate<T>(slots: seq<Slot>, i: nat, slot: Slot, f: Parcel -> T)
    requires i < |slots| && !slots[i].valid && slot.valid
    ensures Held(slots[i := slot], f) == Held(slots, f) + multiset{f(Parcel(slot.targetIp, slot.ToJob()))}
  {
    hide Held;
    var n := |slots| - 1;
    HeldStep(slots, f);
    HeldStep(slots[i := slot], f);
    if i == n {
      assert slots[i := slot][..n] == slots[..n];
    } else {
      assert slots[i := slot][..n] == slots[..n][i := slot];
      HeldUpdate(slots[..n], i, slot, f);
    }
  }

  lemma HeldStep<T>(slots: seq<Slot>, f: Parcel -> T)
    requires |slots| > 0
    ensures var n, slot := |slots| - 1, slots[|slots| - 1];
            Held(slots, f) == Held(slots[..n], f)
                              + (if slot.valid then multiset{f(Parcel(slot.targetIp, slot.ToJob()))} else multiset{})
  {}

  lemma {:induction false} NothingHeld<T>(slots: seq<Slot>, f: Parcel -> T)
    requires forall i :: 0 <= i < |slots| ==> !slots[i].valid
    ensures Held(slots, f) == multiset{}
  {
    if |slots| > 0 {
      NothingHeld(slots[..|slots| - 1], f);
    }
  }

  lemma BookOne<T>(target: u32, jobs: seq<Job>, job: Job, f: Parcel -> T)
    ensures Booked(target, jobs + [job], f) == Booked(target, jobs, f) + multiset{f(Parcel(target, job))}
  {
    assert (jobs + [job])[..|jobs|] == jobs;
  }

  lemma FlushOneMore(slots: seq<Slot>, target: u32, k: nat)
    requires k < |slots|
    ensures AfterFlush(slots, target, 0) == slots
    ensures Waits(slots[k], target) ==>
      && AfterFlush(slots, target, k + 1) == AfterFlush(slots, target, k)[k := slots[k].Emptied()]
      && AfterFlush(slots, target, k) == AfterFlush(slots, target, k + 1)[k := slots[k]]
    ensures !Waits(slots[k], target) ==> AfterFlush(slots, target, k + 1) == AfterFlush(slots, target, k)
  {}

  // What leaves the slots was sent or freed.
  lemma {:induction false} FlushConserves<T>(slots: seq<Slot>, target: u32, works: seq<bool>, k: nat, f: Parcel -> T)
    requires k <= |slots| == |works|
    ensures Held(slots, f) == Held(AfterFlush(slots, target, k), f)
                              + Booked(target, Jobs(slots, target, works, true, k), f)
                              + Booked(target, Jobs(slots, target, works, false, k), f)
    ensures Count(slots, Used()) == Count(AfterFlush(slots, target, k), Used())
                           + |Jobs(slots, target, works, true, k)| + |Jobs(slots, target, works, false, k)|
    decreases k
  {
    hide Held, Count, Booked, Jobs;
    NothingBooked(target, f);
    JobsStep(slots, target, works, true, k);
    JobsStep(slots, target, works, false, k);
    if k == 0 {
      assert AfterFlush(slots, target, 0) == slots;
    } else {
      FlushConserves(slots, target, works, k - 1, f);
      FlushOneMore(slots, target, k - 1);
      var slot := slots[k - 1];
      if Waits(slot, target) {
        HeldUpdate(AfterFlush(slots, target, k), k - 1, slot, f);
        CountUpdate(AfterFlush(slots, target, k), Used(), k - 1, slot);
        BookOne(target, Jobs(slots, target, works, works[k - 1], k - 1), slot.ToJob(), f);
      }
    }
  }

  lemma JobsStep(slots: seq<Slot>, target: u32, works: seq<bool>, ok: bool, k: nat)
    requires k <= |slots| == |works|
    ensures k == 0 ==> Jobs(slots, target, works, ok, k) == []
    ensures k > 0 && Waits(slots[k - 1], target) && works[k - 1] == ok ==>
              Jobs(slots, target, works, ok, k) == Jobs(slots, target, works, ok, k - 1) + [slots[k - 1].ToJob()]
    ensures k > 0 && !(Waits(slots[k - 1], target) && works[k - 1] == ok) ==>
              Jobs(slots, target, works, ok, k) == Jobs(slots, target, works, ok, k - 1)
  {}

  lemma NothingBooked<T>(target: u32, f: Parcel -> T)
    ensures Booked(target, [], f) == multiset{}
  {}

  // ---- runs ----

  datatype Op = Enqueues(r: Request) | Flushes(target: u32, works: seq<bool>)

  predicate OpOk(op: Op) {
    op.Flushes? ==> |op.works| == ARP_MAX_PENDING_PACKETS
  }

  // The queue and what became of everything that was enqueued so far.
  datatype Ledger<T> = Ledger(queue: Queue, accepted: multiset<T>, sent: multiset<T>, freed: multiset<T>)

  // What a request asks to be sent, once its target is known.
  function Asked(r: Request): Parcel {
    Parcel(r.target, Job(Get(r.iface), r.srcIp, r.dstIp, r.protocol, Get(r.payload)))
  }

  function Apply<T(==)>(l: Ledger<T>, op: Op, f: Parcel -> T): Ledger<T>
    requires OpOk(op) && |l.queue.slots| == ARP_MAX_PENDING_PACKETS
  {
    match op
    case Enqueues(r) =>
      (match Enqueue(l.queue, r)
       case None => l
       case Some(q) => l.(queue := q, accepted := l.accepted + multiset{f(Asked(r))}))
    case Flushes(target, works) =>
      var done := Flush(l.queue, target, works);
      l.(queue := done.queue, sent := l.sent + Booked(target, done.sent, f),
         freed := l.freed + Booked(target, done.freed, f))
  }

  function EmptyQueue(): Queue {
    Queue(seq(ARP_MAX_PENDING_PACKETS, _ => ZERO_SLOT), 0)
  }

  function RunOf<T(==)>(ops: seq<Op>, f: Parcel -> T): (l: Ledger<T>)
    requires forall op <- ops :: OpOk(op)
    ensures |l.queue.slots| == ARP_MAX_PENDING_PACKETS
  {
    if |ops| == 0 then Ledger(EmptyQueue(), multiset{}, multiset{}, multiset{})
    else
      assert ops[|ops| - 1] in ops;
      Apply(RunOf(ops[..|ops| - 1], f), ops[|ops| - 1], f)
  }

  ghost predicate LedgerOk<T>(l: Ledger<T>, f: Parcel -> T) {
    QueueOk(l.queue) && l.accepted == Held(l.queue.slots, f) + l.sent + l.freed
  }

  lemma EnqueueKeepsLedger<T>(l: Ledger<T>, r: Request, f: Parcel -> T)
    requires LedgerOk(l, f)
    ensures LedgerOk(Apply(l, Enqueues(r), f), f)
    ensures Enqueue(l.queue, r).Some? <==>
              r.iface.Some? && r.target != 0 && r.payload.Some? && l.queue.count < ARP_MAX_PENDING_PACKETS
  {
    hide Held, Count, First;
    var q := l.queue;
    CountBounds(q.slots, Used());
    match First(q.slots, Free())
    case Some(i) =>
      var slot := Slot(true, r.target, r.srcIp, r.dstIp, r.protocol, r.iface, r.payload);
      HeldUpdate(q.slots, i, slot, f);
      CountUpdate(q.slots, Used(), i, slot);
    case None =>
  }

  lemma FlushKeepsLedger<T>(l: Ledger<T>, target: u32, works: seq<bool>, f: Parcel -> T)
    requires LedgerOk(l, f) && |works| == ARP_MAX_PENDING_PACKETS
    ensures LedgerOk(Apply(l, Flushes(target, works), f), f)
  {
    hide Held, Count, Booked, Jobs;
    NothingBooked(target, f);
    FlushConserves(l.queue.slots, target, works, ARP_MAX_PENDING_PACKETS, f);
  }

  // Over every sequence of enqueues and flushes: what was taken over is still pending, was handed on by a
  // working ip_send, or was freed, each exactly once, whichever part of a parcel is booked; and
  // pending_count is exact.
  lemma {:induction false} OwnershipIsConserved<T>(ops: seq<Op>, f: Parcel -> T)
    requires forall op <- ops :: OpOk(op)
    ensures LedgerOk(RunOf(ops, f), f)
  {
    if |ops| == 0 {
      NothingHeld(EmptyQueue().slots, f);
      CountBounds(EmptyQueue().slots, Used());
    } else {
      var before, op := ops[..|ops| - 1], ops[|ops| - 1];
      assert op in ops && forall o <- before :: o in ops;
      OwnershipIsConserved(before, f);
      match op
      case Enqueues(r) => EnqueueKeepsLedger(RunOf(before, f), r, f);
      case Flushes(target, works) => FlushKeepsLedger(RunOf(before, f), target, works, f);
    }
  }

  // A payload that was enqueued only once is in one place at most, and an accepted one in some place.
  lemma EachPayloadOnce(ops: seq<Op>, payload: Handle)
    requires (forall op <- ops :: OpOk(op)) && RunOf(ops, PayloadOf).accepted[payload] == 1
    ensures var l := RunOf(ops, PayloadOf);
            Held(l.queue.slots, PayloadOf)[payload] + l.sent[payload] + l.freed[payload] == 1
  {
    OwnershipIsConserved(ops, PayloadOf);
  }

  // Nothing is sent, dropped or kept that was not asked for: what leaves in a flush for some target was
  // enqueued for that target with exactly this interface, these addresses, protocol and payload.
  lemma SentAsAsked(ops: seq<Op>, p: Parcel)
    requires forall op <- ops :: OpOk(op)
    ensures var l := RunOf(ops, Whole);
            (p in l.sent || p in l.freed || p in Held(l.queue.slots, Whole)) <==> p in l.accepted
    ensures p in RunOf(ops, Whole).accepted ==>
              exists i :: 0 <= i < |ops| && ops[i].Enqueues? && Asked(ops[i].r) == p
  {
    hide RunOf, Held, QueueOk;
    OwnershipIsConserved(ops, Whole);
    if p in RunOf(ops, Whole).accepted {
      AcceptedWasAsked(ops, p);
    }
  }

  lemma {:induction false} AcceptedWasAsked(ops: seq<Op>, p: Parcel)
    requires (forall op <- ops :: OpOk(op)) && p in RunOf(ops, Whole).accepted
    ensures exists i :: 0 <= i < |ops| && ops[i].Enqueues? && Asked(ops[i].r) == p
  {
    hide Flush, Enqueue;
    if |ops| > 0 {
      var before, op := ops[..|ops| - 1], ops[|ops| - 1];
      assert op in ops && forall o <- before :: o in ops;
      if p in RunOf(before, Whole).accepted {
        AcceptedWasAsked(before, p);
        var i :| 0 <= i < |before| && before[i].Enqueues? && Asked(before[i].r) == p;
        assert ops[i] == before[i];
      } else {
        assert op.Enqueues? && Asked(op.r) == p;
        assert ops[|ops| - 1].Enqueues?;
      }
    }
  }

  // Which of the waiting jobs a flush sends and which it drops: those whose ip_send works, and the others.
  lemma {:induction false} JobsAreThoseThatWork(slots: seq<Slot>, target: u32, works: seq<bool>, ok: bool, k: nat,
                                                j: Job)
    requires k <= |slots| == |works|
    ensures j in Jobs(slots, target, works, ok, k) <==>
              exists i :: 0 <= i < k && Waits(slots[i], target) && works[i] == ok && slots[i].ToJob() == j
  {
    hide Jobs;
    JobsStep(slots, target, works, ok, k);
    if k > 0 {
      JobsAreThoseThatWork(slots, target, works, ok, k - 1, j);
    }
  }

  lemma FlushSendsWhatWorks(q: Queue, target: u32, works: seq<bool>, j: Job)
    requires target != 0 && |works| == |q.slots|
    ensures var done := Flush(q, target, works);
            && (j in done.sent <==>
                  exists i :: 0 <= i < |q.slots| && Waits(q.slots[i], target) && works[i] && q.slots[i].ToJob() == j)
            && (j in done.freed <==>
                  exists i :: 0 <= i < |q.slots| && Waits(q.slots[i], target) && !works[i] && q.slots[i].ToJob() == j)
  {
    hide Jobs;
    JobsAreThoseThatWork(q.slots, target, works, true, |q.slots|, j);
    JobsAreThoseThatWork(q.slots, target, works, false, |q.slots|, j);
  }

  // A flush leaves nothing behind for its target, and nothing else is touched.
  lemma FlushIsExact(q: Queue, target: u32, works: seq<bool>)
    requires QueueOk(q) && |works| == ARP_MAX_PENDING_PACKETS
    ensures var r := Flush(q, target, works).queue.slots;
            forall i :: 0 <= i < |q.slots| ==>
              !Waits(r[i], target) && (!Waits(q.slots[i], target) ==> r[i] == q.slots[i])
  {}

  // ---- order ----

  // The last job of a flush is that of the last slot that waits.
  lemma {:induction false} LastJob(slots: seq<Slot>, target: u32, works: seq<bool>, j: nat, k: nat)
    requires j < k <= |slots| == |works| && Waits(slots[j], target)
    requires forall i :: 0 <= i < |works| ==> works[i]
    requires forall i :: j < i < k ==> !Waits(slots[i], target)
    ensures var jobs := Jobs(slots, target, works, true, k); |jobs| > 0 && jobs[|jobs| - 1] == slots[j].ToJob()
    decreases k
  {
    if k > j + 1 {
      LastJob(slots, target, works, j, k - 1);
    }
  }

  lemma {:induction false} LastWaiting(slots: seq<Slot>, target: u32, i: nat) returns (j: nat)
    requires i < |slots| && Waits(slots[i], target)
    ensures i <= j < |slots| && Waits(slots[j], target) && forall k :: j < k < |slots| ==> !Waits(slots[k], target)
  {
    var n := |slots| - 1;
    if Waits(slots[n], target) {
      j := n;
    } else {
      j := LastWaiting(slots[..n], target, i);
      forall k | j < k < |slots| ensures !Waits(slots[k], target) {
        assert k < n ==> slots[k] == slots[..n][k];
      }
    }
  }

  // The queue is not first in, first out. Exactly when a packet enqueued now will be sent after all
  // that already wait for its target: when none of those sits behind the first free slot.
  lemma SentLastIff(q: Queue, r: Request, works: seq<bool>, i: nat)
    requires QueueOk(q) && Enqueue(q, r).Some? && First(q.slots, Free()) == Some(i)
    requires |works| == ARP_MAX_PENDING_PACKETS && forall k :: 0 <= k < |works| ==> works[k]
    requires forall k :: 0 <= k < |q.slots| ==> q.slots[k].payload != r.payload
    ensures var sent := Flush(Enqueue(q, r).value, r.target, works).sent;
            && |sent| > 0
            && (sent[|sent| - 1].payload == r.payload.value <==>
                   forall k :: i < k < |q.slots| ==> !Waits(q.slots[k], r.target))
  {
    hide First, Count, Jobs;
    var slots := Enqueue(q, r).value.slots;
    var j := LastWaiting(slots, r.target, i);
    LastJob(slots, r.target, works, j, |slots|);
    if j > i {
      assert slots[j] == q.slots[j];
    } else {
      assert forall k :: i < k < |slots| ==> slots[k] == q.slots[k];
    }
  }

  // Such a queue is reached by two enqueues and one flush.
  lemma OvertakingIsReachable(works: seq<bool>, first: Request, waiting: Request) returns (q: Queue)
    requires |works| == ARP_MAX_PENDING_PACKETS
    requires Enqueue(EmptyQueue(), first).Some? && Enqueue(EmptyQueue(), waiting).Some?
             && first.target != waiting.target
    ensures q == RunOf([Enqueues(first), Enqueues(waiting), Flushes(first.target, works)], PayloadOf).queue
    ensures QueueOk(q) && First(q.slots, Free()) == Some(0) && Waits(q.slots[1], waiting.target)
  {
    hide First, Jobs, Booked, Count, Held, RunOf;
    var one, two, three := Enqueues(first), Enqueues(waiting), Flushes(first.target, works);
    RunOfMore([], one);
    RunOfMore([one], two);
    RunOfMore([one, two], three);
    assert [] + [one] == [one] && [one] + [two] == [one, two] && [one, two] + [three] == [one, two, three];
    assert !EmptyQueue().slots[0].valid;
    assert First(EmptyQueue().slots, Free()) == Some(0);
    var q1 := RunOf([one], PayloadOf).queue;
    assert q1.slots[0].valid && q1.slots[0].targetIp == first.target && !q1.slots[1].valid;
    assert First(q1.slots, Free()) == Some(1);
    q := RunOf([one, two, three], PayloadOf).queue;
    assert !q.slots[0].valid;
    OwnershipIsConserved([one, two, three], PayloadOf);
  }

  lemma RunOfMore(ops: seq<Op>, op: Op)
    requires (forall o <- ops :: OpOk(o)) && OpOk(op)
    ensures RunOf([], PayloadOf).queue == EmptyQueue()
    ensures RunOf(ops + [op], PayloadOf) == Apply(RunOf(ops, PayloadOf), op, PayloadOf)
  {
    assert (ops + [op])[..|ops|] == ops;
  }

  // ---- the queue in memory ----

  class PendingQueue {
    const pending: array<Slot>
    var pendingCount: int

    ghost predicate Valid()
      reads this, pending
    {
      QueueOk(Value())
    }

    ghost function Value(): Queue
      reads this, pending
    {
      Queue(pending[..], pendingCount)
    }

    // arp_cache_init
    constructor ()
      ensures Valid() && fresh(pending) && Value() == EmptyQueue()
    {
      pending := new Slot[ARP_MAX_PENDING_PACKETS](_ => ZERO_SLOT);
      pendingCount := 0;
      new;
      CountBounds(pending[..], Used());
    }

    // arp_pending_enqueue
    method EnqueuePacket(r: Request) returns (ok: bool)
      requires Valid()
      modifies this, pending
      ensures Valid()
      ensures match Enqueue(old(Value()), r)
              case Some(q) => ok && Value() == q
              case None => !ok && Value() == old(Value())
    {
      hide Count, First;
      if r.iface.None? || r.target == 0 || r.payload.None? {
        return false;
      }
      for i := 0 to ARP_MAX_PENDING_PACKETS
        invariant Value() == old(Value())
        invariant forall k :: 0 <= k < i ==> !Free()(pending[k])
      {
        if !pending[i].valid {
          var slot := Slot(true, r.target, r.srcIp, r.dstIp, r.protocol, r.iface, r.payload);
          CountUpdate(pending[..], Used(), i, slot);
          pending[i] := slot;
          pendingCount := pendingCount + 1;
          assert pending[..] == old(pending[..])[i := slot];
          return true;
        }
      }
      return false;
    }

    // arp_pending_flush; jobs are the successful calls of ip_send.
    method FlushTarget(target: u32, works: seq<bool>) returns (sent: nat, jobs: seq<Job>)
      requires Valid() && |works| == ARP_MAX_PENDING_PACKETS
      modifies this, pending
      ensures Valid()
      ensures var f := Flush(old(Value()), target, works); Value() == f.queue && jobs == f.sent && sent == |f.sent|
    {
      hide Count, Held, Booked;
      sent, jobs := 0, [];
      if target == 0 {
        return;
      }
      ghost var slots := pending[..];
      FlushOneMore(slots, target, 0);
      for i := 0 to ARP_MAX_PENDING_PACKETS
        invariant pending[..] == AfterFlush(slots, target, i)
        invariant jobs == Jobs(slots, target, works, true, i) && sent == |jobs|
        invariant pendingCount == old(pendingCount) - |jobs| - |Jobs(slots, target, works, false, i)|
      {
        assert pending[i] == pending[..][i] == slots[i];
        FlushOneMore(slots, target, i);
        var slot := pending[i];
        if slot.valid && slot.targetIp == target {
          CountIsPositive(slots, target, works, i);
          pending[i] := slot.Emptied();
          if pendingCount > 0 {
            pendingCount := pendingCount - 1;
          }
          if works[i] {
            jobs := jobs + [slot.ToJob()];
            sent := sent + 1;
          }
        }
      }
      FlushConserves(slots, target, works, ARP_MAX_PENDING_PACKETS, PayloadOf);
    }
  }

  // So the guard that keeps pending_count from going below zero never matters.
  lemma CountIsPositive(slots: seq<Slot>, target: u32, works: seq<bool>, i: nat)
    requires i < |slots| == |works| && Waits(slots[i], target)
    ensures Count(slots, Used()) - |Jobs(slots, target, works, true, i)| - |Jobs(slots, target, works, false, i)| > 0
  {
    hide Jobs;
    FlushConserves(slots, target, works, i, PayloadOf);
    CountBounds(AfterFlush(slots, target, i), Used());
    assert Used()(AfterFlush(slots, target, i)[i]);
  }
}
