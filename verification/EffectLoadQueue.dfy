/** The effect load queue (src/effectloader.h): effects wait in a queue and are loaded one for
    each `dequeue` that the event loop delivers; a flag avoids posting more than needed. */
module EffectLoading {
  /** An effect to load with its flags. */
  datatype Entry = Entry(name: nat, flags: nat)

  datatype Queue = Queue(queue: seq<Entry>, scheduled: bool, pending: nat, loaded: seq<Entry>)

  const IDLE := Queue([], false, 0, [])

  function Schedule(q: Queue): Queue {
    if q.queue == [] || q.scheduled then q else q.(scheduled := true, pending := q.pending + 1)
  }

  function Enqueue(q: Queue, e: Entry): Queue { Schedule(q.(queue := q.queue + [e])) }

  /** What was posted to the event loop stays there. */
  function Clear(q: Queue): Queue { q.(queue := [], scheduled := false) }

  function Dequeue(q: Queue): Queue {
    if q.queue == [] then q
    else Schedule(q.(scheduled := false, queue := q.queue[1..], loaded := q.loaded + [q.queue[0]]))
  }

  /** The event loop delivers a posted call, if there is one. */
  function Deliver(q: Queue): Queue {
    if q.pending == 0 then q else Dequeue(q.(pending := q.pending - 1))
  }

  datatype Op = DoEnqueue(e: Entry) | DoClear | DoDeliver

  function Step(q: Queue, op: Op): Queue {
    match op
    case DoEnqueue(e) => Enqueue(q, e)
    case DoClear => Clear(q)
    case DoDeliver => Deliver(q)
  }

  function Run(ops: seq<Op>): Queue {
    if ops == [] then IDLE else Step(Run(ops[..|ops| - 1]), ops[|ops| - 1])
  }

  // ---------- no wake-up is lost ----------

  /** The flag is set exactly while entries wait, and then a call is on its way. */
  predicate Awake(q: Queue) {
    (q.queue != [] <==> q.scheduled) && (q.scheduled ==> q.pending >= 1)
  }

  lemma StepAwake(q: Queue, op: Op)
    requires Awake(q)
    ensures Awake(Step(q, op))
  {
  }

  /** In every run, with calls posted before a clear still to come, no wake-up is lost. */
  lemma {:induction false} AlwaysAwake(ops: seq<Op>)
    ensures Awake(Run(ops))
  {
    if ops != [] {
      AlwaysAwake(ops[..|ops| - 1]);
      StepAwake(Run(ops[..|ops| - 1]), ops[|ops| - 1]);
    }
  }

  /** How often the queue was cleared. */
  function Clears(ops: seq<Op>): nat {
    if ops == [] then 0 else Clears(ops[..|ops| - 1]) + if ops[|ops| - 1].DoClear? then 1 else 0
  }

  /** No more calls are posted than needed: one while entries wait, and at most one stale one
      for each clear. */
  lemma {:induction false} FewCallsPosted(ops: seq<Op>)
    ensures Run(ops).pending <= (if Run(ops).queue != [] then 1 else 0) + Clears(ops)
  {
    AlwaysAwake(ops);
    if ops != [] {
      FewCallsPosted(ops[..|ops| - 1]);
      AlwaysAwake(ops[..|ops| - 1]);
    }
  }

  /** How many calls were posted: one by each entry that comes to an empty queue, and one by
      each delivery that leaves entries waiting. */
  function Posted(ops: seq<Op>): nat {
    if ops == [] then 0 else
      var q, before := Run(ops[..|ops| - 1]), Posted(ops[..|ops| - 1]);
      match ops[|ops| - 1]
      case DoEnqueue(_) => if q.queue == [] then before + 1 else before
      case DoClear => before
      case DoDeliver => if q.pending > 0 && |q.queue| > 1 then before + 1 else before
  }

  function Delivered(ops: seq<Op>): nat {
    if ops == [] then 0 else
      var before := Delivered(ops[..|ops| - 1]);
      if ops[|ops| - 1].DoDeliver? && Run(ops[..|ops| - 1]).pending > 0 then before + 1 else before
  }

  /** Every call that was posted is delivered or still on its way, also one posted before a
      clear. */
  lemma {:induction false} PostedCallsStay(ops: seq<Op>)
    ensures Run(ops).pending + Delivered(ops) == Posted(ops)
  {
    if ops != [] {
      PostedCallsStay(ops[..|ops| - 1]);
      AlwaysAwake(ops[..|ops| - 1]);
    }
  }

  /** The event loop runs until nothing is posted any more. */
  function Drain(q: Queue): Queue
    requires Awake(q)
    decreases |q.queue| + q.pending
  {
    if q.pending == 0 then q else
      StepAwake(q, DoDeliver);
      Drain(Deliver(q))
  }

  /** Draining loads all waiting entries, in their order, and comes to rest. */
  lemma {:induction false} DrainLoadsAll(q: Queue)
    requires Awake(q)
    ensures Drain(q) == Queue([], false, 0, q.loaded + q.queue)
    decreases |q.queue| + q.pending
  {
    if q.pending > 0 {
      StepAwake(q, DoDeliver);
      DrainLoadsAll(Deliver(q));
      if q.queue != [] {
        assert q.loaded + [q.queue[0]] + q.queue[1..] == q.loaded + q.queue;
      }
    } else {
      assert q.loaded + q.queue == q.loaded;
    }
  }

  // ---------- what becomes of each entry ----------

  /** The entries enqueued in a run, in order. */
  function Enqueued(ops: seq<Op>): seq<Entry> {
    if ops == [] then [] else
      var all := Enqueued(ops[..|ops| - 1]);
      if ops[|ops| - 1].DoEnqueue? then all + [ops[|ops| - 1].e] else all
  }

  function Range(low: int, high: int): (r: set<int>)
    ensures forall i :: i in r <==> low <= i < high
    decreases high - low
  {
    if low >= high then {} else Range(low, high - 1) + {high - 1}
  }

  /** The positions, among the enqueued entries, of those dropped by a clear. */
  function Dropped(ops: seq<Op>): set<int> {
    if ops == [] then {} else
      var init := ops[..|ops| - 1];
      if ops[|ops| - 1].DoClear?
      then Dropped(init) + Range(|Enqueued(init)| - |Run(init).queue|, |Enqueued(init)|)
      else Dropped(init)
  }

  /** The elements of `s` at positions from `k` on that are not in `dropped`. */
  function Surviving(s: seq<Entry>, dropped: set<int>): seq<Entry> {
    if s == [] then [] else
      var n := |s| - 1;
      var rest := Surviving(s[..n], dropped);
      if n in dropped then rest else rest + [s[n]]
  }

  lemma {:induction false} SurvivingSame(s: seq<Entry>, a: set<int>, b: set<int>)
    requires forall i :: 0 <= i < |s| ==> (i in a <==> i in b)
    ensures Surviving(s, a) == Surviving(s, b)
  {
    if s != [] {
      SurvivingSame(s[..|s| - 1], a, b);
    }
  }

  /** If none of the last entries has been dropped, they are the last survivors; dropping
      them leaves the others. */
  lemma {:induction false} SurvivingTail(s: seq<Entry>, dropped: set<int>, k: nat)
    requires k <= |s| && forall i :: k <= i < |s| ==> i !in dropped
    ensures Surviving(s, dropped) == Surviving(s[..k], dropped) + s[k..]
    ensures Surviving(s, dropped + Range(k, |s|)) == Surviving(s[..k], dropped)
  {
    var wider := dropped + Range(k, |s|);
    if k == |s| {
      assert s[..k] == s;
      SurvivingSame(s, dropped, wider);
    } else {
      var n := |s| - 1;
      var init := s[..n];
      assert init[..k] == s[..k] && s[k..] == init[k..] + [s[n]];
      SurvivingTail(init, dropped, k);
      SurvivingSame(init, wider, dropped + Range(k, |init|));
    }
  }

  ghost predicate Accounted(q: Queue, all: seq<Entry>, dropped: set<int>) {
    && |q.queue| <= |all|
    && q.queue == all[|all| - |q.queue|..]
    && (forall i :: i in dropped ==> i < |all| - |q.queue|)
    && q.loaded + q.queue == Surviving(all, dropped)
  }

  lemma EnqueueAccounted(q: Queue, all: seq<Entry>, dropped: set<int>, e: Entry)
    requires Accounted(q, all, dropped)
    ensures Accounted(Enqueue(q, e), all + [e], dropped)
  {
  }

  lemma ClearAccounted(q: Queue, all: seq<Entry>, dropped: set<int>)
    requires Accounted(q, all, dropped)
    ensures Accounted(Clear(q), all, dropped + Range(|all| - |q.queue|, |all|))
  {
    var k := |all| - |q.queue|;
    ClearKeepsLoaded(q, all, dropped);
    assert all[|all|..] == [] && q.loaded + [] == q.loaded;
  }

  lemma ClearKeepsLoaded(q: Queue, all: seq<Entry>, dropped: set<int>)
    requires Accounted(q, all, dropped)
    ensures q.loaded == Surviving(all, dropped + Range(|all| - |q.queue|, |all|))
  {
    var k := |all| - |q.queue|;
    var before := Surviving(all[..k], dropped);
    SurvivingTail(all, dropped, k);
    SameTail(q.loaded, before, q.queue);
  }

  lemma SameTail(a: seq<Entry>, b: seq<Entry>, tail: seq<Entry>)
    requires a + tail == b + tail
    ensures a == b
  {
    assert |a + tail| == |b + tail|;
    assert (a + tail)[..|a|] == a && (b + tail)[..|b|] == b;
  }

  lemma DeliverAccounted(q: Queue, all: seq<Entry>, dropped: set<int>)
    requires Accounted(q, all, dropped)
    ensures Accounted(Deliver(q), all, dropped)
    ensures |Deliver(q).loaded| <= |q.loaded| + 1
  {
  }

  /** In every run, what was loaded and what still waits are together the enqueued entries
      that no clear has dropped, in the order in which they were enqueued. */
  lemma {:induction false} EveryEntryAccounted(ops: seq<Op>)
    ensures Accounted(Run(ops), Enqueued(ops), Dropped(ops))
  {
    if ops != [] {
      var init := ops[..|ops| - 1];
      EveryEntryAccounted(init);
      match ops[|ops| - 1]
      case DoEnqueue(e) => EnqueueAccounted(Run(init), Enqueued(init), Dropped(init), e);
      case DoClear => ClearAccounted(Run(init), Enqueued(init), Dropped(init));
      case DoDeliver => DeliverAccounted(Run(init), Enqueued(init), Dropped(init));
    }
  }

  /** So a drained event loop has loaded exactly the entries not dropped by a clear. */
  lemma DrainedRunLoadsSurvivors(ops: seq<Op>)
    ensures Awake(Run(ops)) && Drain(Run(ops)).loaded == Surviving(Enqueued(ops), Dropped(ops))
  {
    AlwaysAwake(ops);
    DrainLoadsAll(Run(ops));
    EveryEntryAccounted(ops);
  }

  // ---------- the class ----------

  class EffectLoadQueue {
    var queue: seq<Entry>
    var dequeueScheduled: bool
    /** The calls of `Dequeue` posted to the event loop and not yet delivered. */
    var pending: nat
    /** The effects handed to the loader, in order. */
    var loaded: seq<Entry>

    function Snapshot(): Queue
      reads this
    {
      Queue(queue, dequeueScheduled, pending, loaded)
    }

    constructor ()
      ensures Snapshot() == IDLE
    {
      queue, dequeueScheduled, pending, loaded := [], false, 0, [];
    }

    method EnqueueEntry(e: Entry)
      modifies this
      ensures Snapshot() == Enqueue(old(Snapshot()), e)
    {
      queue := queue + [e];
      ScheduleDequeue();
    }

    method ClearQueue()
      modifies this
      ensures Snapshot() == Clear(old(Snapshot()))
    {
      queue := [];
      dequeueScheduled := false;
    }

    method DequeueEntry()
      modifies this
      ensures Snapshot() == Dequeue(old(Snapshot()))
    {
      if queue == [] {
        return;
      }
      dequeueScheduled := false;
      var pair := queue[0];
      queue := queue[1..];
      loaded := loaded + [pair];
      ScheduleDequeue();
    }

    method ScheduleDequeue()
      modifies this
      ensures Snapshot() == Schedule(old(Snapshot()))
    {
      if queue == [] || dequeueScheduled {
        return;
      }
      dequeueScheduled := true;
      pending := pending + 1;
    }

    /** The event loop works off everything that is posted or gets posted meanwhile. */
    method ProcessEvents()
      requires Awake(Snapshot())
      modifies this
      ensures Snapshot() == Drain(old(Snapshot()))
      ensures loaded == old(loaded) + old(queue) && queue == []
    {
      DrainLoadsAll(Snapshot());
      while pending > 0
        invariant Awake(Snapshot()) && Drain(Snapshot()) == Drain(old(Snapshot()))
        decreases |queue| + pending
      {
        StepAwake(Snapshot(), DoDeliver);
        pending := pending - 1;
        DequeueEntry();
      }
    }
  }
}
