/** The event queue of src/engine/event.c: a growable array, kept sorted by stable insertion. */
module EventQueue {
  import opened Wrappers

  // what stands for the fields that the queue never looks at.
  datatype Event<+T> = Event(timestamp: nat, what: T)

  ghost predicate Sorted<T>(q: seq<Event<T>>) {
    forall i, j :: 0 <= i < j < |q| ==> q[i].timestamp <= q[j].timestamp
  }

  // Where the backward scan of event_queue_push stops: behind the last event that is not later than e.
  function Position<T>(q: seq<Event<T>>, e: Event<T>): (k: nat)
    ensures k <= |q| && (k > 0 ==> q[k - 1].timestamp <= e.timestamp)
    ensures forall j :: k <= j < |q| ==> q[j].timestamp > e.timestamp
  {
    if q != [] && q[|q| - 1].timestamp > e.timestamp then Position(q[..|q| - 1], e) else |q|
  }

  function Insert<T>(q: seq<Event<T>>, e: Event<T>): (r: seq<Event<T>>)
    ensures |r| == |q| + 1
  {
    var k := Position(q, e);
    q[..k] + [e] + q[k..]
  }

  lemma PositionIsUnique<T>(q: seq<Event<T>>, e: Event<T>, k: nat)
    requires k <= |q| && (k > 0 ==> q[k - 1].timestamp <= e.timestamp)
    requires forall j :: k <= j < |q| ==> q[j].timestamp > e.timestamp
    ensures Position(q, e) == k
  {
    hide Position;
  }

  lemma InsertIndex<T>(q: seq<Event<T>>, e: Event<T>)
    ensures var k, r := Position(q, e), Insert(q, e);
            r[k] == e && (forall j :: 0 <= j < k ==> r[j] == q[j]) && (forall j :: k < j < |r| ==> r[j] == q[j - 1])
  {
    hide Position;
  }

  lemma InsertedAt<T>(q: seq<Event<T>>, e: Event<T>, k: nat, r: seq<Event<T>>)
    requires k <= |q| && (k > 0 ==> q[k - 1].timestamp <= e.timestamp)
    requires forall j :: k <= j < |q| ==> q[j].timestamp > e.timestamp
    requires |r| == |q| + 1 && r[k] == e
    requires (forall j :: 0 <= j < k ==> r[j] == q[j]) && (forall j :: k < j < |r| ==> r[j] == q[j - 1])
    ensures r == Insert(q, e)
  {
    hide Position, Insert;
    PositionIsUnique(q, e, k);
    InsertIndex(q, e);
  }

  lemma InsertKeepsElements<T>(q: seq<Event<T>>, e: Event<T>)
    ensures multiset(Insert(q, e)) == multiset(q) + multiset{e}
  {
    var k := Position(q, e);
    assert q == q[..k] + q[k..];
  }

  lemma InsertKeepsOrder<T>(q: seq<Event<T>>, e: Event<T>)
    requires Sorted(q)
    ensures Sorted(Insert(q, e))
  {
    hide Insert, Position;
    InsertIndex(q, e);
    var k, r := Position(q, e), Insert(q, e);
    forall i, j | 0 <= i < j < |r| ensures r[i].timestamp <= r[j].timestamp {
      if i < k <= j && k > 0 {
        assert q[i].timestamp <= q[k - 1].timestamp;
      }
    }
  }

  // ---- the stable priority queue that this is ----

  // The reference keeps events in the order in which they were pushed; FirstOf is the position of
  // the earliest timestamp, the earliest pushed among equals.
  function FirstOf<T>(bag: seq<Event<T>>): (i: nat)
    requires bag != []
    ensures i < |bag|
    ensures forall j :: 0 <= j < |bag| ==> bag[i].timestamp <= bag[j].timestamp
    ensures forall j :: 0 <= j < i ==> bag[i].timestamp < bag[j].timestamp
  {
    var n := |bag| - 1;
    if n == 0 then 0
    else
      var i := FirstOf(bag[..n]);
      assert forall j :: 0 <= j < n ==> bag[j] == bag[..n][j];
      if bag[n].timestamp < bag[i].timestamp then n else i
  }

  function Without<T>(bag: seq<Event<T>>, i: nat): seq<Event<T>>
    requires i < |bag|
  {
    bag[..i] + bag[i + 1..]
  }

  // The queue contents that belong to a bag.
  function Arranged<T>(bag: seq<Event<T>>): (q: seq<Event<T>>)
    ensures |q| == |bag|
  {
    if bag == [] then [] else Insert(Arranged(bag[..|bag| - 1]), bag[|bag| - 1])
  }

  lemma {:induction false} ArrangedIsSortedBag<T>(bag: seq<Event<T>>)
    ensures Sorted(Arranged(bag)) && multiset(Arranged(bag)) == multiset(bag)
  {
    if bag != [] {
      var n := |bag| - 1;
      ArrangedIsSortedBag(bag[..n]);
      InsertKeepsElements(Arranged(bag[..n]), bag[n]);
      InsertKeepsOrder(Arranged(bag[..n]), bag[n]);
      assert bag == bag[..n] + [bag[n]];
    }
  }

  lemma InsertBehindHead<T>(q: seq<Event<T>>, e: Event<T>)
    requires Sorted(q) && q != []
    ensures e.timestamp < q[0].timestamp ==> Insert(q, e) == [e] + q
    ensures e.timestamp >= q[0].timestamp ==> Insert(q, e) == [q[0]] + Insert(q[1..], e)
  {
    hide Position;
    if e.timestamp < q[0].timestamp {
      PositionIsUnique(q, e, 0);
    } else {
      var k := Position(q, e);
      PositionIsUnique(q[1..], e, k - 1);
      assert q[..k] == [q[0]] + q[1..][..k - 1];
      assert q[k..] == q[1..][k - 1..];
    }
  }

  lemma WithoutLast<T>(before: seq<Event<T>>, e: Event<T>)
    ensures Without(before + [e], |before|) == before
  {}

  lemma WithoutEarlier<T>(before: seq<Event<T>>, e: Event<T>, i: nat)
    requires i < |before|
    ensures Without(before + [e], i) == Without(before, i) + [e]
  {}

  lemma ArrangedSnoc<T>(bag: seq<Event<T>>, e: Event<T>)
    ensures Arranged(bag + [e]) == Insert(Arranged(bag), e)
  {
    assert (bag + [e])[..|bag|] == bag;
  }

  // Popping the arranged queue removes exactly the first event of the bag.
  lemma {:induction false} PopIsFirst<T>(bag: seq<Event<T>>)
    requires bag != []
    ensures Arranged(bag)[0] == bag[FirstOf(bag)]
    ensures Arranged(bag)[1..] == Arranged(Without(bag, FirstOf(bag)))
  {
    hide Insert, Without;
    var n := |bag| - 1;
    var before, e := bag[..n], bag[n];
    assert bag == before + [e];
    ArrangedSnoc(before, e);
    WithoutLast(before, e);
    if n > 0 {
      var i, q := FirstOf(before), Arranged(before);
      PopIsFirst(before);
      ArrangedIsSortedBag(before);
      InsertBehindHead(q, e);
      if e.timestamp >= q[0].timestamp {
        WithoutEarlier(before, e, i);
        ArrangedSnoc(Without(before, i), e);
      }
    } else {
      assert before == [] && Insert([], e) == [e] by { OneEvent(e); }
    }
  }

  lemma OneEvent<T>(e: Event<T>)
    ensures Insert([], e) == [e]
  {}

  datatype Op<T> = Push(e: Event<T>) | Pop

  // A queue, or a bag, with everything that was popped so far.
  datatype Served<T> = Served(items: seq<Event<T>>, popped: seq<Event<T>>)

  function QueueRun<T>(ops: seq<Op<T>>): Served<T> {
    if ops == [] then Served([], [])
    else
      var s := QueueRun(ops[..|ops| - 1]);
      match ops[|ops| - 1]
      case Push(e) => s.(items := Insert(s.items, e))
      case Pop => if s.items == [] then s else Served(s.items[1..], s.popped + [s.items[0]])
  }

  function BagRun<T>(ops: seq<Op<T>>): Served<T> {
    if ops == [] then Served([], [])
    else
      var s := BagRun(ops[..|ops| - 1]);
      match ops[|ops| - 1]
      case Push(e) => s.(items := s.items + [e])
      case Pop =>
        if s.items == [] then s
        else Served(Without(s.items, FirstOf(s.items)), s.popped + [s.items[FirstOf(s.items)]])
  }

  ghost function Pushed<T>(ops: seq<Op<T>>): multiset<Event<T>> {
    if ops == [] then multiset{}
    else
      var m := Pushed(ops[..|ops| - 1]);
      match ops[|ops| - 1] case Push(e) => m + multiset{e} case Pop => m
  }

  ghost predicate Serves<T>(q: Served<T>, b: Served<T>, pushed: multiset<Event<T>>) {
    && q.popped == b.popped && q.items == Arranged(b.items) && Sorted(q.items)
    && multiset(q.items) + multiset(q.popped) == pushed
  }

  lemma PushServes<T>(q: Served<T>, b: Served<T>, pushed: multiset<Event<T>>, e: Event<T>)
    requires Serves(q, b, pushed)
    ensures Serves(q.(items := Insert(q.items, e)), b.(items := b.items + [e]), pushed + multiset{e})
  {
    hide Insert;
    ArrangedSnoc(b.items, e);
    InsertKeepsElements(q.items, e);
    InsertKeepsOrder(q.items, e);
  }

  lemma PopServes<T>(q: Served<T>, b: Served<T>, pushed: multiset<Event<T>>)
    requires Serves(q, b, pushed) && b.items != []
    ensures var i := FirstOf(b.items);
            Serves(Served(q.items[1..], q.popped + [q.items[0]]),
                   Served(Without(b.items, i), b.popped + [b.items[i]]), pushed)
  {
    hide Insert, Without, Arranged;
    PopIsFirst(b.items);
    assert q.items == [q.items[0]] + q.items[1..];
  }

  // Any interleaving of pushes and pops serves what the stable priority queue serves: always the
  // least (timestamp, push order); and no event is lost or duplicated.
  lemma {:induction false} QueueIsStablePriorityQueue<T>(ops: seq<Op<T>>)
    ensures Serves(QueueRun(ops), BagRun(ops), Pushed(ops))
  {
    hide Insert, Without, Serves;
    if ops == [] {
      assert Serves<T>(Served([], []), Served([], []), multiset{}) by { NothingServed<T>(); }
    } else {
      var before := ops[..|ops| - 1];
      QueueIsStablePriorityQueue(before);
      var q, b := QueueRun(before), BagRun(before);
      SameEmptiness(q, b, Pushed(before));
      match ops[|ops| - 1]
      case Push(e) => PushServes(q, b, Pushed(before), e);
      case Pop => if b.items != [] { PopServes(q, b, Pushed(before)); }
    }
  }

  lemma NothingServed<T>()
    ensures Serves<T>(Served([], []), Served([], []), multiset{})
  {}

  lemma SameEmptiness<T>(q: Served<T>, b: Served<T>, pushed: multiset<Event<T>>)
    requires Serves(q, b, pushed)
    ensures q.items == [] <==> b.items == []
  {}

  // ---- the queue in memory ----

  class EventQueue<T(0)> {
    var events: array<Event<T>>
    var count: nat

    ghost predicate Valid()
      reads this
    {
      events.Length > 0 && count <= events.Length
    }

    ghost function Contents(): (q: seq<Event<T>>)
      requires Valid()
      reads this, events
      ensures |q| == count
    {
      events[..count]
    }

    constructor (capacity: nat)
      requires capacity > 0
      ensures Valid() && fresh(events) && Contents() == []
    {
      events := new Event<T>[capacity];
      count := 0;
    }

    // event_queue_push; reallocOk says whether growing the array works when it is full.
    method PushEvent(e: Event<T>, reallocOk: bool) returns (ok: bool)
      requires Valid()
      modifies this, events
      ensures Valid() && (events == old(events) || fresh(events))
      ensures ok == (reallocOk || old(count) < old(events.Length))
      ensures Contents() == if ok then Insert(old(Contents()), e) else old(Contents())
    {
      if count >= events.Length {
        if !reallocOk {
          return false;
        }
        Grow(e);
      }
      Place(e);
      return true;
    }

    // Lines 94-101: the shifting insertion.
    method Place(e: Event<T>)
      requires Valid() && count < events.Length
      modifies this`count, events
      ensures Valid() && Contents() == Insert(old(Contents()), e)
    {
      hide Insert, Position;
      ghost var q := events[..count];
      var i := count - 1;
      while i >= 0 && events[i].timestamp > e.timestamp
        invariant -1 <= i < count
        invariant forall k :: 0 <= k <= i ==> events[k] == q[k]
        invariant forall k :: i < k < count ==> q[k].timestamp > e.timestamp
        invariant forall k :: i + 2 <= k <= count ==> events[k] == q[k - 1]
        modifies events
      {
        events[i + 1] := events[i];
        i := i - 1;
      }
      events[i + 1] := e;
      count := count + 1;
      InsertedAt(q, e, i + 1, events[..count]);
    }

    // realloc to twice the capacity.
    method Grow(filler: Event<T>)
      requires Valid() && count == events.Length
      modifies this`events
      ensures Valid() && fresh(events) && events.Length == 2 * old(events.Length)
      ensures Contents() == old(Contents())
    {
      var capacity := events.Length * 2;
      var more := new Event<T>[capacity](_ => filler);
      for k := 0 to count
        invariant forall j :: 0 <= j < k ==> more[j] == events[j]
        modifies more
      {
        more[k] := events[k];
      }
      events := more;
    }

    // event_queue_pop
    method PopEvent() returns (e: Option<Event<T>>)
      requires Valid()
      modifies this`count, events
      ensures Valid()
      ensures if old(Contents()) == [] then e == None && Contents() == []
              else e == Some(old(Contents())[0]) && Contents() == old(Contents())[1..]
    {
      if count == 0 {
        return None;
      }
      e := Some(events[0]);
      ghost var q := Contents();
      for k := 0 to count - 1
        invariant forall j :: 0 <= j < k ==> events[j] == q[j + 1]
        invariant forall j :: k <= j < count ==> events[j] == q[j]
        modifies events
      {
        events[k] := events[k + 1];
      }
      count := count - 1;
    }

    // event_queue_peek
    method Peek() returns (e: Option<Event<T>>)
      requires Valid()
      ensures e == if Contents() == [] then None else Some(Contents()[0])
    {
      return if count == 0 then None else Some(events[0]);
    }
  }
}
