/**
 * The message queue of one service (skynet-src/skynet_mq.c): a ring that doubles when it is full,
 * with the flags that tie it to the global run queue. Each method is one critical section of the
 * queue's lock.
 */
module MessageQueue {
  import opened Rings

  const DEFAULT_QUEUE_SIZE: nat := 64
  const MQ_OVERLOAD: nat := 1024

  datatype Msg = Msg(source: nat, id: nat)

  /** What the ring stands for: the messages waiting, oldest first, and the two flags. */
  datatype Queue = Queue(handle: nat, msgs: seq<Msg>, inGlobal: bool, release: bool)

  /** A push flags the queue; if it was not flagged, it also goes to the global list. */
  function Pushed(q: Queue, m: Msg): Queue { q.(msgs := q.msgs + [m], inGlobal := true) }

  /** A pop from an empty queue takes the flag away. */
  function Popped(q: Queue): Queue { if q.msgs == [] then q.(inGlobal := false) else q.(msgs := q.msgs[1..]) }

  /** The last length that passes the threshold is reported, and the threshold doubled past it. */
  function Threshold(length: nat, threshold: nat): (t: nat)
    requires threshold > 0
    ensures t >= length && t >= threshold
    ensures t > threshold ==> t < 2 * length
    decreases length - threshold
  {
    if length > threshold then Threshold(length, 2 * threshold) else threshold
  }

  class MessageRing {
    const handle: nat
    var cap: nat
    var head: nat
    var tail: nat
    var release: bool
    var inGlobal: bool
    var overload: nat
    var overloadThreshold: nat
    var queue: array<Msg>

    ghost predicate Valid()
      reads this
    {
      && queue.Length == cap && 1 < cap && head < cap && tail < cap && overloadThreshold > 0
    }

    ghost function Contents(): seq<Msg>
      requires Valid()
      reads this, queue
    {
      Ring(queue[..], head, tail)
    }

    ghost function Value(): Queue
      requires Valid()
      reads this, queue
    {
      Queue(handle, Contents(), inGlobal, release)
    }

    /** skynet_mq_create: the flag is set, as the creator will push the queue itself. */
    constructor (handle: nat)
      ensures Valid() && fresh(queue) && Value() == Queue(handle, [], true, false)
      ensures overload == 0 && overloadThreshold == MQ_OVERLOAD
    {
      this.handle := handle;
      cap, head, tail := DEFAULT_QUEUE_SIZE, 0, 0;
      release, inGlobal, overload, overloadThreshold := false, true, 0, MQ_OVERLOAD;
      queue := new Msg[DEFAULT_QUEUE_SIZE](_ => Msg(0, 0));
    }

    /** skynet_mq_length */
    method MqLength() returns (n: nat)
      requires Valid()
      ensures n == |Contents()|
    {
      n := if head <= tail then tail - head else tail + cap - head;
    }

    /** skynet_mq_overload: the report is given once. */
    method MqOverload() returns (r: nat)
      modifies this`overload
      ensures r == old(overload) && overload == 0
    {
      r := overload;
      overload := 0;
    }

    /** skynet_mq_pop */
    method MqPop() returns (m: Msg, ret: bool)
      requires Valid()
      modifies this`head, this`inGlobal, this`overload, this`overloadThreshold
      ensures Valid() && Value() == Popped(old(Value()))
      ensures ret == (old(Contents()) == []) && (!ret ==> m == old(Contents())[0])
      ensures overloadThreshold == if ret then MQ_OVERLOAD else Threshold(|Contents()|, old(overloadThreshold))
      ensures overload == if !ret && |Contents()| > old(overloadThreshold) then |Contents()| else old(overload)
    {
      hide Ring;
      RingSize(queue[..], head, tail);
      ret, m := true, Msg(0, 0);
      if head != tail {
        m := queue[head];
        head := head + 1;
        ret := false;
        var h := head;
        if h >= cap { h := 0; head := 0; }
        RingPopped(queue[..], old(head), tail);
        RingSize(queue[..], h, tail);
        var length := tail - h;
        if length < 0 { length := length + cap; }
        RaiseThreshold(length);
      } else {
        overloadThreshold := MQ_OVERLOAD;
      }
      if ret { inGlobal := false; }
    }

    /** The overload check of skynet_mq_pop. */
    method RaiseThreshold(length: nat)
      requires overloadThreshold > 0
      modifies this`overload, this`overloadThreshold
      ensures overloadThreshold == Threshold(length, old(overloadThreshold))
      ensures overload == if length > old(overloadThreshold) then length else old(overload)
    {
      while length > overloadThreshold
        invariant overloadThreshold > 0 && Threshold(length, old(overloadThreshold)) == Threshold(length, overloadThreshold)
        invariant if overloadThreshold == old(overloadThreshold) then overload == old(overload) else overload == length
        invariant overloadThreshold > old(overloadThreshold) ==> length > old(overloadThreshold)
        invariant overloadThreshold >= old(overloadThreshold)
        decreases length - overloadThreshold
      {
        overload := length;
        overloadThreshold := overloadThreshold * 2;
      }
    }

    /** expand_queue: a full ring, whose head has caught up with its tail, doubles. */
    method ExpandQueue()
      requires queue.Length == cap && 1 < cap && head < cap && tail == head && overloadThreshold > 0
      modifies this`head, this`tail, this`cap, this`queue
      ensures Valid() && fresh(queue)
      ensures Contents() == old(queue[..][head..] + queue[..][..head])
    {
      var newQueue := new Msg[cap * 2](_ => Msg(0, 0));
      ghost var all := queue[..][head..] + queue[..][..head];
      var i := 0;
      while i < cap
        invariant 0 <= i <= cap
        invariant newQueue[..i] == all[..i]
        modifies newQueue
      {
        WrapIndex(head, i, cap);
        newQueue[i] := queue[(head + i) % cap];
        assert all[i] == queue[(head + i) % cap];
        i := i + 1;
      }
      assert all[..cap] == all;
      head, tail, cap := 0, cap, cap * 2;
      queue := newQueue;
    }

    /** skynet_mq_push; `toGlobal` tells that the queue now goes to the global list. */
    method MqPush(message: Msg) returns (toGlobal: bool)
      requires Valid()
      modifies this`head, this`tail, this`cap, this`queue, this`inGlobal, queue
      ensures Valid() && (queue == old(queue) || fresh(queue))
      ensures Value() == Pushed(old(Value()), message)
      ensures toGlobal == !old(inGlobal)
    {
      hide Ring;
      RingPushed(queue[..], head, tail, message);
      queue[tail] := message;
      assert queue[..] == old(queue[..])[old(tail) := message];
      tail := tail + 1;
      if tail >= cap { tail := 0; }
      if head == tail { ExpandQueue(); }
      toGlobal := !inGlobal;
      if toGlobal { inGlobal := true; }
    }

    /** skynet_mq_mark_release: the released queue must be found by a worker that will drop it. */
    method MarkRelease() returns (toGlobal: bool)
      requires Valid() && !release
      modifies this`release
      ensures Valid() && Value() == old(Value()).(release := true) && toGlobal == !inGlobal
    {
      release := true;
      toGlobal := !inGlobal;
    }
  }
}
