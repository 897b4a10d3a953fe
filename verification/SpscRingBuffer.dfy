/** The ring as one thread sees it: a bounded queue with a latched overflow flag. */
module SpscRingBuffer {
  import opened Words
  import opened MaskedIncrement

  datatype ReadResult<+T> = Success(value: T) | BufferIsEmpty | ConsumerIsDisabled

  /** The queue that the ring implements. */
  datatype Queue<T> = Live(pending: seq<T>) | Overflowed

  function Enqueue<T>(q: Queue<T>, capacity: nat, x: T): Queue<T> {
    if q.Live? && |q.pending| < capacity then Live(q.pending + [x]) else Overflowed
  }

  function Dequeue<T>(q: Queue<T>): (r: (ReadResult<T>, Queue<T>)) {
    match q
    case Overflowed => (ConsumerIsDisabled, Overflowed)
    case Live(pending) =>
      if pending == [] then (BufferIsEmpty, q) else (Success(pending[0]), Live(pending[1..]))
  }

  class SpscRingBuffer<T(0)> {
    const length: u32
    const data: array<T>
    var head: u32
    var tail: u32
    var active: bool

    ghost predicate Valid()
      reads this
    {
      ValidLength(length) && data.Length == length && head < length && tail < length
    }

    /** The unread items are in the slots after the tail up to the head, around the ring. */
    ghost function Contents(): (q: Queue<T>)
      requires Valid()
      reads this, data
      ensures q.Live? ==> |q.pending| <= length - 1
    {
      if !active then Overflowed
      else if tail <= head then Live(data[tail + 1..head + 1])
      else Live(data[tail + 1..] + data[..head + 1])
    }

    constructor (length: u32)
      requires ValidLength(length)
      ensures Valid() && fresh(data) && this.length == length
      ensures Contents() == Live([])
    {
      this.length := length;
      data := new T[length];
      head, tail, active := 0, 0, true;
    }

    method Write(x: T)
      requires Valid()
      modifies this, data
      ensures Valid()
      ensures Contents() == Enqueue(old(Contents()), length - 1, x)
    {
      ghost var before := Contents();
      var newHead := Increment(length, head);
      StepsAround(length, head);
      if newHead == tail {
        active := false;
      }
      data[newHead] := x;
      head := newHead;
      if active {
        if tail < newHead {
          assert data[tail + 1..head + 1] == old(data[tail + 1..head + 1]) + [x];
        } else if newHead == 0 {
          assert data[..1] == [x] && data[tail + 1..] == old(data[tail + 1..]);
        } else {
          assert data[..head + 1] == old(data[..head + 1]) + [x] && data[tail + 1..] == old(data[tail + 1..]);
        }
        assert Contents().pending == before.pending + [x];
      }
    }

    method Read() returns (r: ReadResult<T>)
      requires Valid()
      modifies this
      ensures Valid()
      ensures (r, Contents()) == Dequeue(old(Contents()))
      ensures r.ConsumerIsDisabled? <==> old(Contents()).Overflowed?
      ensures r.BufferIsEmpty? <==> old(Contents()) == Live([])
    {
      if !active {
        return ConsumerIsDisabled;
      }
      if tail == head {
        return BufferIsEmpty;
      }
      ghost var before := Contents();
      var newTail := Increment(length, tail);
      StepsAround(length, tail);
      r := Success(data[newTail]);
      tail := newTail;
      assert Contents().pending == before.pending[1..];
    }

    method ResetConsumer()
      requires Valid()
      modifies this
      ensures Valid()
      ensures Contents() == Live([])
    {
      tail := head;
      active := true;
    }
  }

  lemma StepsAround(n: u32, i: u32)
    requires ValidLength(n) && i < n
    ensures Increment(n, i) == if i + 1 < n then i + 1 else 0
  {
    IncrementIsModular(n, i);
    if i + 1 < n {
      QuotientUnique(i + 1, n, 0, i + 1);
    } else {
      QuotientUnique(i + 1, n, 1, 0);
    }
  }

  // ---- Any sequence of calls ----

  datatype Call<T> = Write(item: T) | Read | Reset

  /** The queue, with what was written and what was read since the latest reset. */
  datatype Trace<T> = Trace(queue: Queue<T>, written: seq<T>, taken: seq<T>, results: seq<ReadResult<T>>)

  function After<T>(t: Trace<T>, capacity: nat, call: Call<T>): Trace<T> {
    match call
    case Write(x) => t.(queue := Enqueue(t.queue, capacity, x), written := t.written + [x])
    case Read =>
      var (r, q) := Dequeue(t.queue);
      t.(queue := q, taken := if r.Success? then t.taken + [r.value] else t.taken, results := t.results + [r])
    case Reset => t.(queue := Live([]), written := [], taken := [])
  }

  function AfterAll<T>(t: Trace<T>, capacity: nat, calls: seq<Call<T>>): Trace<T>
    decreases |calls|
  {
    if calls == [] then t else AfterAll(After(t, capacity, calls[0]), capacity, calls[1..])
  }

  ghost predicate Fifo<T>(t: Trace<T>, capacity: nat) {
    match t.queue
    case Live(pending) => |pending| <= capacity && t.taken + pending == t.written
    case Overflowed => |t.taken| + capacity < |t.written| && t.taken == t.written[..|t.taken|]
  }

  lemma FifoStep<T>(t: Trace<T>, capacity: nat, call: Call<T>)
    requires Fifo(t, capacity)
    ensures Fifo(After(t, capacity, call), capacity)
  {
    match call
    case Write(x) =>
      if t.queue.Live? {
        assert t.taken + (t.queue.pending + [x]) == t.written + [x];
        assert t.taken == (t.taken + t.queue.pending + [x])[..|t.taken|];
      } else {
        assert (t.written + [x])[..|t.taken|] == t.written[..|t.taken|];
      }
    case Read =>
      if t.queue.Live? && t.queue.pending != [] {
        var p := t.queue.pending;
        assert p == [p[0]] + p[1..];
        assert t.taken + p == (t.taken + [p[0]]) + p[1..];
      }
    case Reset =>
  }

  lemma {:induction false} CallsKeepFifo<T>(t: Trace<T>, capacity: nat, calls: seq<Call<T>>)
    requires Fifo(t, capacity)
    ensures Fifo(AfterAll(t, capacity, calls), capacity)
    decreases |calls|
  {
    if calls != [] {
      FifoStep(t, capacity, calls[0]);
      CallsKeepFifo(After(t, capacity, calls[0]), capacity, calls[1..]);
    }
  }

  /** Whatever calls are made on a new ring: the items taken since the latest reset are the first
      items written since then, the rest is pending, and the queue overflows exactly when a write
      finds `capacity` items unread; then only a reset brings it back. */
  lemma EveryCallSequenceIsFifo<T>(capacity: nat, calls: seq<Call<T>>)
    ensures var t := AfterAll(Trace(Live([]), [], [], []), capacity, calls);
            && t.taken <= t.written
            && (t.queue.Live? ==> t.taken + t.queue.pending == t.written)
            && (t.queue.Overflowed? <==> |t.taken| + capacity < |t.written|)
  {
    var start: Trace<T> := Trace(Live([]), [], [], []);
    assert start.taken + [] == start.written;
    CallsKeepFifo(start, capacity, calls);
  }

  /** What the next read reports after those calls, told by what was written and taken since the
      latest reset: it is disabled exactly when more than a ring's worth was left unread; otherwise
      it finds nothing exactly when everything was taken, or takes the oldest item that was not. */
  lemma NextReadReports<T>(capacity: nat, calls: seq<Call<T>>)
    ensures var t := AfterAll(Trace(Live([]), [], [], []), capacity, calls);
            var next := After(t, capacity, Read);
            && next.written == t.written
            && if |t.taken| + capacity < |t.written| then
                 next.results == t.results + [ConsumerIsDisabled] && next.taken == t.taken
               else if t.taken == t.written then
                 next.results == t.results + [BufferIsEmpty] && next.taken == t.taken
               else
                 && |t.taken| < |t.written|
                 && next.results == t.results + [Success(t.written[|t.taken|])]
                 && next.taken == t.taken + [t.written[|t.taken|]]
  {
    EveryCallSequenceIsFifo(capacity, calls);
    var t := AfterAll(Trace(Live([]), [], [], []), capacity, calls);
    if t.queue.Live? {
      assert |t.written| == |t.taken| + |t.queue.pending|;
      assert t.queue.pending == t.written[|t.taken|..];
    }
  }
}
