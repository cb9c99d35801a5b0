/**
 The bounded message queue shared by the I/O thread and the worker.

 The class keeps the two variants of the read index apart by the constant `wraps`:
 false is the code as written, where `pop_front` increments `rindex` without a
 modulo; true is the ring buffer the header announces.
 */
module MessageQueues {

  datatype Option<+T> = None | Some(value: T)

  /** A slot of the freshly allocated array holds nothing until it is written. */
  datatype Slot<+T> = Unset | Holding(value: T)

  const COUNTER_RANGE: nat := 0x1_0000_0000

  /** An index that ran at most one lap past the end, brought back into the array. */
  function Fold(maxsize: nat, i: nat): (r: nat)
    requires i < 2 * maxsize
    ensures r < maxsize
  {
    if i < maxsize then i else i - maxsize
  }

  /** How many slots lie from `r` up to, not including, `w`, going upwards and around. */
  function Distance(maxsize: nat, r: nat, w: nat): (d: nat)
    requires r < maxsize && w < maxsize
    ensures d < maxsize
    ensures Fold(maxsize, r + d) == w
  {
    if r <= w then w - r else w + maxsize - r
  }

  /** The next index as the code computes it. */
  function Successor(maxsize: nat, i: nat): (r: nat)
    requires i < maxsize
    ensures r == Fold(maxsize, i + 1)
  {
    (i + 1) % maxsize
  }

  /** A 32-bit counter after one increment. */
  function Increment(counter: nat): (r: nat)
    requires counter < COUNTER_RANGE
    ensures r < COUNTER_RANGE
  {
    if counter + 1 == COUNTER_RANGE then 0 else counter + 1
  }

  /** What a 32-bit counter shows after `n` increments from zero. */
  function Counted(n: nat): (r: nat)
    ensures r < COUNTER_RANGE
  {
    if n == 0 then 0 else Increment(Counted(n - 1))
  }

  lemma CountedNext(n: nat)
    ensures Counted(n + 1) == Increment(Counted(n))
  {
  }

  lemma {:induction false} CountedIsRemainder(n: nat)
    ensures Counted(n) == n % COUNTER_RANGE
  {
    if n > 0 {
      CountedIsRemainder(n - 1);
    }
  }

  /** The slots from `r` on, going around, hold `contents` in order and `w` is the first slot after them. */
  ghost predicate RingHolds<T>(slots: seq<Slot<T>>, r: nat, w: nat, contents: seq<T>)
  {
    && r < |slots| && w < |slots|
    && |contents| == Distance(|slots|, r, w)
    && forall i :: 0 <= i < |contents| ==> slots[Fold(|slots|, r + i)] == Holding(contents[i])
  }

  lemma CutFurther<T>(s: seq<T>, a: nat, b: nat)
    requires a <= b < |s|
    ensures s[a..b + 1] == s[a..b] + [s[b]] && s[a..b + 1] + s[b + 1..] == s[a..]
  {
  }

  /** Equal indices mean nothing waits; a write index just behind the read index means no slot is left. */
  lemma RingExtremes<T>(slots: seq<Slot<T>>, r: nat, w: nat, contents: seq<T>)
    requires RingHolds(slots, r, w, contents)
    ensures r < |slots| && w < |slots|
    ensures r == w <==> contents == []
    ensures Fold(|slots|, w + 1) == r <==> |contents| == |slots| - 1
  {
  }

  lemma RingHoldsPush<T>(slots: seq<Slot<T>>, r: nat, w: nat, contents: seq<T>, m: T)
    requires RingHolds(slots, r, w, contents)
    requires Fold(|slots|, w + 1) != r
    ensures RingHolds(slots[w := Holding(m)], r, Fold(|slots|, w + 1), contents + [m])
  {
  }

  lemma RingHoldsPop<T>(slots: seq<Slot<T>>, r: nat, w: nat, contents: seq<T>)
    requires RingHolds(slots, r, w, contents) && r != w
    ensures contents != [] && slots[r] == Holding(contents[0])
    ensures RingHolds(slots, Fold(|slots|, r + 1), w, contents[1..])
  {
    assert slots[Fold(|slots|, r + 0)] == Holding(contents[0]);
    var r' := Fold(|slots|, r + 1);
    forall i | 0 <= i < |contents[1..]|
      ensures slots[Fold(|slots|, r' + i)] == Holding(contents[1..][i])
    {
      assert contents[1..][i] == contents[i + 1];
      assert Fold(|slots|, r' + i) == Fold(|slots|, r + (i + 1));
    }
  }

  lemma RingHoldsUpdate<T>(slots: seq<Slot<T>>, r: nat, w: nat, contents: seq<T>, m: T)
    requires RingHolds(slots, r, w, contents) && r != w
    ensures contents != [] && RingHolds(slots[r := Holding(m)], r, w, contents[0 := m])
  {
  }

  class MessageQueue<T> {
    const wraps: bool
    const maxsize: nat
    const queue: array<Slot<T>>
    var rindex: nat
    var windex: nat
    var readNumber: nat
    var writeNumber: nat

    /** Every message ever accepted, and how many of them have been popped. */
    ghost var pushed: seq<T>
    ghost var popped: nat

    ghost predicate Valid()
      reads this, queue
    {
      && 0 < maxsize < COUNTER_RANGE
      && queue.Length == maxsize
      && windex < maxsize
      && (if wraps then rindex < maxsize else rindex == popped <= maxsize)
      && popped <= |pushed|
      && RingHolds(queue[..], Fold(maxsize, rindex), windex, pushed[popped..])
      && readNumber == Counted(popped)
      && writeNumber == Counted(|pushed|)
    }

    /** What the range assertion at the head of every operation demands. */
    predicate InRange()
      reads this
    {
      rindex < maxsize && windex < maxsize
    }

    ghost function Contents(): (s: seq<T>)
      requires Valid()
      reads this, queue
      ensures |s| < maxsize
    {
      pushed[popped..]
    }

    constructor (wraps: bool, maxsize: nat)
      requires 0 < maxsize < COUNTER_RANGE
      ensures Valid() && InRange() && fresh(queue)
      ensures this.wraps == wraps && this.maxsize == maxsize
      ensures pushed == [] && popped == 0
    {
      this.wraps := wraps;
      this.maxsize := maxsize;
      queue := new Slot<T>[maxsize](_ => Unset);
      rindex, windex := 0, 0;
      readNumber, writeNumber := 0, 0;
      pushed, popped := [], 0;
    }

    /** Refuses exactly when `maxsize - 1` messages are waiting. */
    method PushBack(message: T) returns (ok: bool)
      requires Valid() && InRange()
      modifies this, queue
      ensures Valid() && InRange()
      ensures ok <==> |old(Contents())| < maxsize - 1
      ensures pushed == if ok then old(pushed) + [message] else old(pushed)
      ensures popped == old(popped)
      ensures Contents() == if ok then old(Contents()) + [message] else old(Contents())
    {
      hide Counted, Increment, Successor, RingHolds;
      CountedNext(|pushed|);
      RingExtremes(queue[..], rindex, windex, Contents());
      var newindex := Successor(maxsize, windex);
      if newindex == rindex {
        return false;
      }
      RingHoldsPush(queue[..], rindex, windex, Contents(), message);
      queue[windex] := Holding(message);
      assert queue[..] == old(queue[..])[windex := Holding(message)];
      windex := newindex;
      writeNumber := Increment(writeNumber);
      pushed := pushed + [message];
      assert pushed[popped..] == old(pushed[popped..]) + [message];
      return true;
    }

    method Empty() returns (empty: bool)
      requires Valid() && InRange()
      ensures empty <==> Contents() == []
    {
      empty := rindex == windex;
    }

    method Front() returns (m: Option<T>)
      requires Valid() && InRange()
      ensures m == if Contents() == [] then None else Some(Contents()[0])
    {
      hide RingHolds;
      RingExtremes(queue[..], rindex, windex, Contents());
      if rindex == windex {
        return None;
      }
      RingHoldsPop(queue[..], rindex, windex, Contents());
      m := Some(queue[rindex].value);
    }

    /** Whether the queue stays in range afterwards depends on `wraps` alone. */
    method PopFront() returns (m: Option<T>)
      requires Valid() && InRange()
      modifies this
      ensures Valid()
      ensures pushed == old(pushed)
      ensures if old(Contents()) == []
              then m == None && popped == old(popped)
              else m == Some(old(Contents())[0]) && popped == old(popped) + 1
                   && Contents() == old(Contents())[1..]
      ensures InRange() <==> wraps || popped < maxsize
    {
      hide Counted, Increment, Successor, RingHolds;
      CountedNext(popped);
      RingExtremes(queue[..], rindex, windex, Contents());
      if rindex == windex {
        return None;
      }
      RingHoldsPop(queue[..], rindex, windex, Contents());
      readNumber := Increment(readNumber);
      m := Some(queue[rindex].value);
      rindex := if wraps then Successor(maxsize, rindex) else rindex + 1;
      popped := popped + 1;
      assert pushed[popped..] == old(pushed[popped..])[1..];
    }

    /** A write through the pointer that `Front` hands out. */
    method UpdateFront(m: T)
      requires Valid() && InRange() && Contents() != []
      modifies this`pushed, queue
      ensures Valid() && InRange()
      ensures pushed == old(pushed)[popped := m]
      ensures Contents() == old(Contents())[0 := m]
    {
      hide RingHolds;
      RingExtremes(queue[..], rindex, windex, Contents());
      RingHoldsUpdate(queue[..], rindex, windex, Contents(), m);
      queue[rindex] := Holding(m);
      assert queue[..] == old(queue[..])[rindex := Holding(m)];
      pushed := pushed[popped := m];
      assert pushed[popped..] == old(pushed[popped..])[0 := m];
    }

    /**
     The counters wrap at 32 bits. The assertion inside `number` therefore fails
     once more writes than reads have passed a multiple of 2^32, and otherwise the
     difference is the number of waiting messages.
     */
    method Number() returns (n: Option<nat>)
      requires Valid() && InRange()
      ensures n == if |pushed| / COUNTER_RANGE == popped / COUNTER_RANGE then Some(|Contents()|) else None
    {
      CountedIsRemainder(|pushed|);
      CountedIsRemainder(popped);
      if writeNumber < readNumber {
        return None;
      }
      n := Some(writeNumber - readNumber);
    }

    /** Pops and frees until empty; `aborted` is the range assertion failing on the way. */
    method Drain() returns (freed: seq<T>, aborted: bool)
      requires Valid() && InRange()
      modifies this
      ensures Valid() && pushed == old(pushed)
      ensures freed + Contents() == old(Contents())
      ensures aborted <==> !wraps && |pushed| >= maxsize && old(Contents()) != []
      ensures !aborted ==> Contents() == []
    {
      hide RingHolds, Counted;
      freed, aborted := [], false;
      while true
        invariant Valid() && InRange() && pushed == old(pushed) && old(popped) <= popped
        invariant freed == pushed[old(popped)..popped]
        decreases |pushed| - popped
      {
        assert pushed[old(popped)..popped] + pushed[popped..] == pushed[old(popped)..];
        var empty := Empty();
        if empty {
          return;
        }
        var m := PopFront();
        assert m.value == pushed[popped - 1];
        CutFurther(pushed, old(popped), popped - 1);
        freed := freed + [m.value];
        if !InRange() {
          return freed, true;
        }
      }
    }
  }
}
