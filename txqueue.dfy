/** The transmit queue: a bounded FIFO of bytes whose enqueue fails when it is
    full and whose dequeue fails when it is empty. Its implementation
    (queue.h) is not part of this model; this is the contract the driver
    relies on. */
module TxQueue {
  import opened Wrappers
  import opened Codec

  datatype Queue = Queue(items: seq<Byte>, capacity: nat)

  /** The queue never holds more than its capacity. */
  predicate Valid(q: Queue)
  {
    |q.items| <= q.capacity
  }

  function Empty(capacity: nat): (q: Queue)
    ensures Valid(q) && q.items == [] && q.capacity == capacity
  {
    Queue([], capacity)
  }

  /** Appends b when there is room and reports whether it did. */
  function Enqueue(q: Queue, b: Byte): (r: (Queue, bool))
    ensures r.1 <==> |q.items| < q.capacity
    ensures r.0.items == if r.1 then q.items + [b] else q.items
    ensures r.0.capacity == q.capacity
    ensures Valid(q) ==> Valid(r.0)
  {
    if |q.items| < q.capacity then (q.(items := q.items + [b]), true) else (q, false)
  }

  /** Removes and returns the oldest byte, or None when the queue is empty. */
  function Dequeue(q: Queue): (r: (Queue, Option<Byte>))
    ensures r.1.None? <==> q.items == []
    ensures r.1.Some? ==> r.1.value == q.items[0] && r.0.items == q.items[1..]
    ensures r.1.None? ==> r.0 == q
    ensures r.0.capacity == q.capacity
    ensures Valid(q) ==> Valid(r.0)
  {
    if q.items == [] then (q, None) else (q.(items := q.items[1..]), Some(q.items[0]))
  }

  /** A queue operation as a producer or consumer issues it. */
  datatype QueueOp = Put(b: Byte) | Take

  /** What a run of operations did: the final queue, the bytes accepted by
      Put and the bytes returned by Take, in order. */
  datatype QueueRun = QueueRun(queue: Queue, accepted: seq<Byte>, taken: seq<Byte>)

  /** One operation applied to the outcome of a run. */
  function StepQueue(r: QueueRun, op: QueueOp): QueueRun
  {
    match op
    case Put(b) =>
      var (q', ok) := Enqueue(r.queue, b);
      QueueRun(q', if ok then r.accepted + [b] else r.accepted, r.taken)
    case Take =>
      var (q', got) := Dequeue(r.queue);
      QueueRun(q', r.accepted, if got.Some? then r.taken + [got.value] else r.taken)
  }

  function RunQueue(q: Queue, ops: seq<QueueOp>): QueueRun
    decreases |ops|
  {
    if ops == [] then QueueRun(q, [], [])
    else StepQueue(RunQueue(q, ops[..|ops| - 1]), ops[|ops| - 1])
  }

  /** What was taken followed by what is left equals what was there followed by
      what was accepted, and the bound holds. */
  ghost predicate Conserves(q: Queue, r: QueueRun)
  {
    r.taken + r.queue.items == q.items + r.accepted
    && Valid(r.queue) && r.queue.capacity == q.capacity
  }

  /** One operation keeps the balance of a run. */
  lemma StepQueueConserves(q: Queue, r: QueueRun, op: QueueOp)
    requires Conserves(q, r)
    ensures Conserves(q, StepQueue(r, op))
  {
    match op
    case Put(b) =>
      assert r.taken + (r.queue.items + [b]) == (r.taken + r.queue.items) + [b];
    case Take =>
      if r.queue.items != [] {
        assert r.queue.items == [r.queue.items[0]] + r.queue.items[1..];
        assert (r.taken + [r.queue.items[0]]) + r.queue.items[1..] == r.taken + r.queue.items;
      }
  }

  /** First in, first out: after any run, what was taken followed by what is
      left is what was there followed by what was accepted, so no byte is taken
      that was not put, none is lost or reordered, and the bound holds. */
  lemma {:induction false} RunQueueFifo(q: Queue, ops: seq<QueueOp>)
    requires Valid(q)
    ensures var r := RunQueue(q, ops);
      r.taken + r.queue.items == q.items + r.accepted
      && Valid(r.queue) && r.queue.capacity == q.capacity
    decreases |ops|
  {
    if ops == [] {
      assert q.items + [] == q.items;
    } else {
      RunQueueFifo(q, ops[..|ops| - 1]);
      StepQueueConserves(q, RunQueue(q, ops[..|ops| - 1]), ops[|ops| - 1]);
    }
  }
}
