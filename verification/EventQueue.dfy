/** Back-pressure between a driver and its reader: the bounded queue with its
    high and low water marks, and the supervisor that numbers what enters it. */
module EventQueue {
  import opened Results

  datatype Bounds = Bounds(capacity: int, highWater: int, lowWater: int)

  predicate BoundsValid(b: Bounds) { b.capacity >= b.highWater > b.lowWater >= 0 }

  datatype Event = Event(known: bool, sequence: int, body: string)

  datatype Queue = Queue(items: seq<Event>, paused: bool)

  const EMPTY_QUEUE := Queue([], false)

  function Pushed(b: Bounds, q: Queue, e: Event): Queue {
    if |q.items| == b.capacity then q
    else Queue(q.items + [e], q.paused || |q.items| + 1 >= b.highWater)
  }

  predicate Resumes(b: Bounds, q: Queue) { q.paused && |q.items| - (if q.items == [] then 0 else 1) <= b.lowWater }

  function Shifted(b: Bounds, q: Queue): Queue {
    Queue(if q.items == [] then [] else q.items[1..], q.paused && !Resumes(b, q))
  }

  datatype PushReceipt = PushReceipt(size: nat, pauseReads: bool)
  datatype ShiftReceipt = ShiftReceipt(value: Option<Event>, size: nat, resumeReads: bool)

  class BoundedQueue {
    const bounds: Bounds
    var items: seq<Event>
    var paused: bool

    ghost function State(): Queue
      reads this
    {
      Queue(items, paused)
    }

    constructor (bounds: Bounds)
      requires BoundsValid(bounds)
      ensures this.bounds == bounds && State() == EMPTY_QUEUE
    {
      this.bounds := bounds;
      items, paused := [], false;
    }

    method Push(e: Event) returns (r: Result<PushReceipt>)
      modifies this
      ensures State() == Pushed(bounds, old(State()), e)
      ensures r == if |old(items)| == bounds.capacity then Err("VES_DRIVER_BACKPRESSURE_LIMIT")
                   else Ok(PushReceipt(|items|, paused))
    {
      if |items| == bounds.capacity {
        return Err("VES_DRIVER_BACKPRESSURE_LIMIT");
      }
      items := items + [e];
      if |items| >= bounds.highWater {
        paused := true;
      }
      return Ok(PushReceipt(|items|, paused));
    }

    method Shift() returns (r: ShiftReceipt)
      modifies this
      ensures State() == Shifted(bounds, old(State()))
      ensures r.value == if old(items) == [] then None else Some(old(items)[0])
      ensures r.size == |items| && r.resumeReads == Resumes(bounds, old(State()))
    {
      var value := None;
      if items != [] {
        value, items := Some(items[0]), items[1..];
      }
      var resumeReads := paused && |items| <= bounds.lowWater;
      if resumeReads {
        paused := false;
      }
      return ShiftReceipt(value, |items|, resumeReads);
    }
  }

  // ---- The supervisor ----

  const MAX_SAFE_INTEGER := 9007199254740991

  class Supervisor {
    const queue: BoundedQueue
    var nextSequence: nat

    constructor (bounds: Bounds)
      requires BoundsValid(bounds)
      ensures fresh(queue) && queue.bounds == bounds && queue.State() == EMPTY_QUEUE && nextSequence == 0
    {
      queue := new BoundedQueue(bounds);
      nextSequence := 0;
    }

    /** The sequence number is spent before the queue can refuse the event. */
    method AcceptEvent(e: Event) returns (r: Result<PushReceipt>)
      modifies this, queue
      ensures Admits(old(nextSequence), e) ==>
                nextSequence == old(nextSequence) + 1 && queue.State() == Pushed(queue.bounds, old(queue.State()), e) &&
                r.Ok? == (|old(queue.items)| != queue.bounds.capacity)
      ensures !Admits(old(nextSequence), e) ==>
                nextSequence == old(nextSequence) && queue.State() == old(queue.State()) && r.Err?
    {
      if !e.known || e.sequence < 0 || e.sequence > MAX_SAFE_INTEGER {
        return Err("VES_DRIVER_EVENT_INVALID");
      }
      if e.sequence != nextSequence {
        return Err("VES_DRIVER_EVENT_SEQUENCE");
      }
      nextSequence := nextSequence + 1;
      r := queue.Push(e);
    }
  }

  predicate Admits(next: nat, e: Event) { e.known && e.sequence == next && next <= MAX_SAFE_INTEGER }

  // ---- Runs ----

  datatype Op = Accept(event: Event) | Next

  /** `taken` is what the reader took out, `inFlight` the events admitted since reads were paused,
      `overflowed` whether an admitted event was ever refused. */
  datatype Run = Run(queue: Queue, next: nat, taken: seq<Event>, inFlight: nat, overflowed: bool)

  const START := Run(EMPTY_QUEUE, 0, [], 0, false)

  function Step(b: Bounds, s: Run, op: Op): Run {
    match op
    case Accept(e) =>
      if !Admits(s.next, e) then s
      else
        Run(Pushed(b, s.queue, e), s.next + 1, s.taken,
            if s.queue.paused then s.inFlight + 1 else 0,
            s.overflowed || |s.queue.items| == b.capacity)
    case Next =>
      var queue := Shifted(b, s.queue);
      s.(queue := queue, taken := s.taken + s.queue.items[..|s.queue.items| - |queue.items|])
  }

  function RunAll(b: Bounds, s: Run, ops: seq<Op>): Run
    decreases |ops|
  {
    if ops == [] then s else RunAll(b, Step(b, s, ops[0]), ops[1..])
  }

  /** The reader never lets more than `k` events through after a pause. */
  predicate Disciplined(b: Bounds, s: Run, ops: seq<Op>, k: int)
    decreases |ops|
  {
    ops == [] || ((Step(b, s, ops[0]).queue.paused ==> Step(b, s, ops[0]).inFlight <= k) &&
                  Disciplined(b, Step(b, s, ops[0]), ops[1..], k))
  }

  ghost predicate Hysteresis(b: Bounds, q: Queue) {
    |q.items| <= b.capacity && (if q.paused then |q.items| > b.lowWater else |q.items| < b.highWater)
  }

  /** What was taken and what is queued are exactly 0, 1, 2, ..., one for each number spent. */
  ghost predicate Contiguous(s: Run) {
    |s.taken + s.queue.items| == s.next && forall i :: 0 <= i < s.next ==> (s.taken + s.queue.items)[i].sequence == i
  }

  /** Contiguous until an event overflows. */
  ghost predicate Conserved(s: Run) { !s.overflowed ==> Contiguous(s) }

  lemma StepKeeps(b: Bounds, s: Run, op: Op)
    requires BoundsValid(b) && Hysteresis(b, s.queue) && Conserved(s)
    ensures Hysteresis(b, Step(b, s, op).queue) && Conserved(Step(b, s, op))
  {
    var all, s' := s.taken + s.queue.items, Step(b, s, op);
    match op {
      case Accept(e) =>
        if Admits(s.next, e) && |s.queue.items| < b.capacity {
          assert s'.taken + s'.queue.items == all + [e];
        }
      case Next => assert s'.taken + s'.queue.items == all;
    }
  }

  /** Over every run: reads are paused only above the low mark and open only below the high mark,
      and without an overflow events leave in order, none lost and none twice. */
  lemma {:induction false} QueueRuns(b: Bounds, s: Run, ops: seq<Op>)
    requires BoundsValid(b) && Hysteresis(b, s.queue) && Conserved(s)
    ensures Hysteresis(b, RunAll(b, s, ops).queue) && Conserved(RunAll(b, s, ops))
    decreases |ops|
  {
    if ops != [] {
      StepKeeps(b, s, ops[0]);
      QueueRuns(b, Step(b, s, ops[0]), ops[1..]);
    }
  }

  // ---- When contiguity is lost ----

  /** Some admitted event arrives at a full queue. */
  predicate MeetsFull(b: Bounds, s: Run, ops: seq<Op>)
    decreases |ops|
  {
    ops != [] &&
    ((ops[0].Accept? && Admits(s.next, ops[0].event) && |s.queue.items| == b.capacity) ||
     MeetsFull(b, Step(b, s, ops[0]), ops[1..]))
  }

  /** Every refused event costs a number that no event bears. */
  ghost predicate Counted(s: Run) {
    |s.taken + s.queue.items| <= s.next && (s.overflowed ==> |s.taken + s.queue.items| < s.next)
  }

  lemma StepCounts(b: Bounds, s: Run, op: Op)
    requires Counted(s)
    ensures Counted(Step(b, s, op))
  {
    if op.Next? {
      assert Step(b, s, op).taken + Step(b, s, op).queue.items == s.taken + s.queue.items;
    }
  }

  lemma {:induction false} OverflowIffMeetsFull(b: Bounds, s: Run, ops: seq<Op>)
    requires Counted(s)
    ensures Counted(RunAll(b, s, ops))
    ensures RunAll(b, s, ops).overflowed <==> s.overflowed || MeetsFull(b, s, ops)
    decreases |ops|
  {
    if ops != [] {
      StepCounts(b, s, ops[0]);
      OverflowIffMeetsFull(b, Step(b, s, ops[0]), ops[1..]);
    }
  }

  /** Over a whole run, events stay contiguous exactly when no admitted event meets a full queue: the
      number of a refused event is spent all the same, so from then on one is missing. */
  lemma ContiguousIffNeverFull(b: Bounds, ops: seq<Op>)
    requires BoundsValid(b)
    ensures Contiguous(RunAll(b, START, ops)) <==> !MeetsFull(b, START, ops)
  {
    OverflowIffMeetsFull(b, START, ops);
    QueueRuns(b, START, ops);
  }

  /** A reader that goes on after a refusal sees event 0 followed by event 2. */
  lemma RefusalLeavesGap()
    ensures var b, e := Bounds(1, 1, 0), (i: int) => Event(true, i, "");
            var r := RunAll(b, START, [Accept(e(0)), Accept(e(1)), Next, Accept(e(2)), Next]);
            BoundsValid(b) && r.taken == [e(0), e(2)] && r.next == 3 && r.overflowed && !Contiguous(r)
  {
    var b, e := Bounds(1, 1, 0), (i: int) => Event(true, i, "");
    var ops := [Accept(e(0)), Accept(e(1)), Next, Accept(e(2)), Next];
    assert ops[1..][1..][1..][1..][1..] == [];
    var s1 := Step(b, START, ops[0]);
    var s2 := Step(b, s1, ops[1]);
    var s3 := Step(b, s2, ops[2]);
    var s4 := Step(b, s3, ops[3]);
    var s5 := Step(b, s4, ops[4]);
    assert s3.taken == [e(0)] && s4.queue.items == [e(2)] && s5.taken == [e(0), e(2)];
    assert RunAll(b, s4, ops[4..]) == RunAll(b, s5, []) == s5;
    assert ops[3..][1..] == ops[4..] && ops[2..][1..] == ops[3..] && ops[1..][1..] == ops[2..];
    assert RunAll(b, s2, ops[2..]) == RunAll(b, s3, ops[3..]);
    assert RunAll(b, START, ops) == RunAll(b, s1, ops[1..]);
  }

  ghost predicate Spare(b: Bounds, s: Run) {
    !s.overflowed && Hysteresis(b, s.queue) && (s.queue.paused ==> |s.queue.items| <= b.highWater + s.inFlight)
  }

  lemma {:induction false} DisciplinedNeverOverflows(b: Bounds, s: Run, ops: seq<Op>, k: int)
    requires BoundsValid(b) && Spare(b, s) && k <= b.capacity - b.highWater
    requires Disciplined(b, s, ops, k)
    ensures !RunAll(b, s, ops).overflowed
    decreases |ops|
  {
    if ops != [] {
      var s' := Step(b, s, ops[0]);
      if s.queue.paused && ops[0].Accept? && Admits(s.next, ops[0].event) {
        assert s'.queue.paused;
      }
      DisciplinedNeverOverflows(b, s', ops[1..], k);
    }
  }

  /** Over any run an event is admitted exactly when it is known, carries the next number and that number
      is exact in a double, so all that is queued or taken is known and numbered exactly. */
  lemma {:induction false} OnlyExactNumbers(b: Bounds, s: Run, ops: seq<Op>)
    requires Exact(s.queue.items) && Exact(s.taken)
    ensures Exact(RunAll(b, s, ops).queue.items) && Exact(RunAll(b, s, ops).taken)
    ensures forall e :: Step(b, s, Accept(e)).next == s.next + 1 <==> Exact([e]) && e.sequence == s.next
    ensures forall e :: Step(b, s, Accept(e)).next == s.next + 1 || Step(b, s, Accept(e)) == s
    decreases |ops|
  {
    assert forall e: Event :: [e][0] == e;
    if ops != [] {
      StepExact(b, s, ops[0]);
      OnlyExactNumbers(b, Step(b, s, ops[0]), ops[1..]);
    }
  }

  predicate Exact(events: seq<Event>) {
    forall e :: e in events ==> e.known && 0 <= e.sequence <= 9007199254740991
  }

  lemma StepExact(b: Bounds, s: Run, op: Op)
    requires Exact(s.queue.items) && Exact(s.taken)
    ensures Exact(Step(b, s, op).queue.items) && Exact(Step(b, s, op).taken)
  {
  }

  // ---- Why the allowance is exact ----

  function Burst(from: nat, n: nat): seq<Op> {
    seq(n, i requires 0 <= i < n => Accept(Event(true, from + i, "")))
  }

  lemma {:induction false} BurstOverflows(b: Bounds, s: Run, n: nat, k: int)
    requires BoundsValid(b) && n == b.capacity + 1 - s.next && s.next <= b.capacity < MAX_SAFE_INTEGER
    requires |s.queue.items| == s.next && s.queue.paused == (s.next >= b.highWater)
    requires s.queue.paused ==> s.inFlight == s.next - b.highWater
    requires k > b.capacity - b.highWater
    ensures RunAll(b, s, Burst(s.next, n)).overflowed && Disciplined(b, s, Burst(s.next, n), k)
    decreases n
  {
    var ops := Burst(s.next, n);
    var s' := Step(b, s, ops[0]);
    assert ops[1..] == Burst(s.next + 1, n - 1);
    if n > 1 {
      BurstOverflows(b, s', n - 1, k);
    } else {
      assert ops[1..] == [];
    }
  }

  /** A reader allowed `k` events after each pause never overflows the queue, over any run,
      exactly when `k` is at most `capacity - highWater`. */
  lemma AllowanceIsExact(b: Bounds, k: int)
    requires BoundsValid(b) && b.capacity < MAX_SAFE_INTEGER
    ensures (forall ops :: Disciplined(b, START, ops, k) ==> !RunAll(b, START, ops).overflowed) <==>
            k <= b.capacity - b.highWater
  {
    if k <= b.capacity - b.highWater {
      forall ops | Disciplined(b, START, ops, k)
        ensures !RunAll(b, START, ops).overflowed
      {
        DisciplinedNeverOverflows(b, START, ops, k);
      }
    } else {
      BurstOverflows(b, START, b.capacity + 1, k);
    }
  }
}
