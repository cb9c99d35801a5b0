/**
 Whole sequences of calls on one message queue, against a bounded FIFO that knows
 nothing of slots and indices.
 */
module QueueRuns {
  import opened MessageQueues

  datatype Call<+T> = Push(message: T) | Pop | Front | Empty
  datatype Reply<+T> = Accepted(ok: bool) | Popped(m: Option<T>) | Head(m: Option<T>) | IsEmpty(b: bool)

  /** The waiting messages, the replies so far, and how many pops returned a message. */
  datatype Fifo<+T> = Fifo(waiting: seq<T>, replies: seq<Reply<T>>, pops: nat)

  function First<T>(s: seq<T>): Option<T> {
    if s == [] then None else Some(s[0])
  }

  function FifoStep<T>(capacity: nat, f: Fifo<T>, c: Call<T>): Fifo<T> {
    match c
    case Push(m) =>
      if |f.waiting| < capacity
      then Fifo(f.waiting + [m], f.replies + [Accepted(true)], f.pops)
      else Fifo(f.waiting, f.replies + [Accepted(false)], f.pops)
    case Pop =>
      if f.waiting == []
      then Fifo([], f.replies + [Popped(None)], f.pops)
      else Fifo(f.waiting[1..], f.replies + [Popped(Some(f.waiting[0]))], f.pops + 1)
    case Front => Fifo(f.waiting, f.replies + [Head(First(f.waiting))], f.pops)
    case Empty => Fifo(f.waiting, f.replies + [IsEmpty(f.waiting == [])], f.pops)
  }

  function FifoRun<T>(capacity: nat, calls: seq<Call<T>>): (f: Fifo<T>)
    ensures |f.replies| == |calls|
  {
    if calls == [] then Fifo([], [], 0)
    else FifoStep(capacity, FifoRun(capacity, calls[..|calls| - 1]), calls[|calls| - 1])
  }

  /** Some call follows `maxsize` successful pops. */
  predicate OverrunsRing<T(==)>(maxsize: nat, calls: seq<Call<T>>)
    requires 0 < maxsize
  {
    calls != [] && FifoRun(maxsize - 1, calls[..|calls| - 1]).pops >= maxsize
  }

  lemma {:induction false} PopsGrow<T>(capacity: nat, calls: seq<Call<T>>, k: nat)
    requires k <= |calls|
    ensures FifoRun(capacity, calls[..k]).pops <= FifoRun(capacity, calls).pops
    decreases |calls|
  {
    if k < |calls| {
      var init := calls[..|calls| - 1];
      PopsGrow(capacity, init, k);
      assert init[..k] == calls[..k];
    } else {
      assert calls[..k] == calls;
    }
  }

  /** One call on the real queue answers as the FIFO does. */
  method Perform<T>(q: MessageQueue<T>, c: Call<T>) returns (r: Reply<T>)
    requires q.Valid() && q.InRange()
    modifies q, q.queue
    ensures q.Valid()
    ensures q.InRange() <==> q.wraps || q.popped < q.maxsize
    ensures forall replies ::
              Fifo(q.Contents(), replies + [r], q.popped)
              == FifoStep(q.maxsize - 1, Fifo(old(q.Contents()), replies, old(q.popped)), c)
  {
    hide RingHolds;
    match c
    case Push(m) =>
      var ok := q.PushBack(m);
      r := Accepted(ok);
    case Pop =>
      var m := q.PopFront();
      r := Popped(m);
    case Front =>
      var m := q.Front();
      r := Head(m);
    case Empty =>
      var b := q.Empty();
      r := IsEmpty(b);
  }

  /**
   A fresh queue under any sequence of calls. Every answered call is answered as a FIFO
   of capacity `maxsize - 1` answers it. With the wrap all calls are answered. As written
   the range assertion stops the run exactly at the call that follows the `maxsize`-th
   successful pop.
   */
  method Replay<T>(wraps: bool, maxsize: nat, calls: seq<Call<T>>)
    returns (replies: seq<Reply<T>>, aborted: bool)
    requires 0 < maxsize < COUNTER_RANGE
    ensures |replies| <= |calls|
    ensures replies == FifoRun(maxsize - 1, calls[..|replies|]).replies
    ensures aborted <==> |replies| < |calls|
    ensures aborted <==> !wraps && OverrunsRing(maxsize, calls)
    ensures aborted ==> FifoRun(maxsize - 1, calls[..|replies|]).pops == maxsize
  {
    hide RingHolds, FifoStep;
    var q := new MessageQueue<T>(wraps, maxsize);
    replies, aborted := [], false;
    while |replies| < |calls|
      invariant |replies| <= |calls|
      invariant fresh(q) && fresh(q.queue) && q.Valid()
      invariant q.wraps == wraps && q.maxsize == maxsize
      invariant q.InRange() <==> wraps || q.popped < maxsize
      invariant q.popped <= maxsize || wraps
      invariant Fifo(q.Contents(), replies, q.popped) == FifoRun(maxsize - 1, calls[..|replies|])
      invariant |replies| > 0 ==> wraps || FifoRun(maxsize - 1, calls[..|replies| - 1]).pops < maxsize
    {
      var k := |replies|;
      if !q.InRange() {
        assert calls[..|calls| - 1][..k] == calls[..k];
        PopsGrow(maxsize - 1, calls[..|calls| - 1], k);
        return replies, true;
      }
      var r := Perform(q, calls[k]);
      assert calls[..k + 1][..k] == calls[..k];
      replies := replies + [r];
    }
    assert calls[..|replies|] == calls;
  }

  /** The calls that alternate `n` pushes with `n` pops. */
  function Rounds(n: nat): seq<Call<int>> {
    if n == 0 then [] else Rounds(n - 1) + [Push(n), Pop]
  }

  lemma {:induction false} RoundsPop(capacity: nat, n: nat)
    requires 0 < capacity
    ensures FifoRun(capacity, Rounds(n)).pops == n && FifoRun(capacity, Rounds(n)).waiting == []
  {
    if n > 0 {
      RoundsPop(capacity, n - 1);
      var calls := Rounds(n);
      var before := calls[..|calls| - 1];
      assert before[..|before| - 1] == Rounds(n - 1);
      assert before[|before| - 1] == Push(n) && calls[|calls| - 1] == Pop;
    }
  }

  /** The failing state is reachable for every size but one: then nothing is ever accepted. */
  lemma AbortIsReachable(maxsize: nat)
    requires 0 < maxsize
    ensures maxsize >= 2 <==> exists calls: seq<Call<int>> :: OverrunsRing(maxsize, calls)
  {
    if maxsize >= 2 {
      RoundsPop(maxsize - 1, maxsize);
      var calls := Rounds(maxsize) + [Empty];
      assert calls[..|calls| - 1] == Rounds(maxsize);
      assert OverrunsRing(maxsize, calls);
    } else {
      forall calls: seq<Call<int>> ensures !OverrunsRing(maxsize, calls) {
        if calls != [] {
          NothingWithoutCapacity(calls[..|calls| - 1]);
        }
      }
    }
  }

  lemma {:induction false} NothingWithoutCapacity<T>(calls: seq<Call<T>>)
    ensures FifoRun(0, calls).pops == 0 && FifoRun(0, calls).waiting == []
  {
    if calls != [] {
      NothingWithoutCapacity(calls[..|calls| - 1]);
    }
  }
}
