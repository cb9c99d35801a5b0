/**
 The ring between its two threads, one access to an index or a slot per step.

 The producer owns `w`, the consumer owns `r`; each reads the other's index once per
 operation. `mq->queue[mq->rindex++]` leaves the order of the slot load and the index
 store to the compiler, so the consumer may do either first.
 */
module QueueInterleaving {
  import opened MessageQueues

  datatype Producer<+T> =
    | Resting
    | Checking(m: T)      // range assertion passed, about to load the read index
    | Storing(m: T)       // found room, about to write the slot
    | Publishing(m: T)    // slot written, about to store the write index

  datatype Consumer<+T> =
    | Waiting
    | Looking(peek: bool) // range assertion passed, about to load the write index
    | Peeking             // found a message, about to load its slot
    | Taking              // found a message, neither slot nor index touched yet
    | Loaded(v: T)        // slot loaded, index not stored yet
    | Moved(i: nat)       // index stored, slot `i` not loaded yet
    | Returning(v: T)     // both done

  datatype Ring<+T> = Ring(wraps: bool, slots: seq<Slot<T>>, r: nat, w: nat, producer: Producer<T>, consumer: Consumer<T>)

  /** What the outside sees of a step. */
  datatype Label<+T> =
    | Silent
    | Accept(m: T) | Refuse(m: T)
    | Take | Answer(m: T) | Peek(m: T)
    | Emptiness(b: bool)

  // ----- the reference: a bounded channel with one message possibly in the consumer's hand

  datatype Channel<+T> = Channel(capacity: nat, waiting: seq<T>, inHand: Option<T>)

  ghost predicate ChannelNext<T(!new)>(c: Channel<T>, c': Channel<T>, l: Label<T>) {
    match l
    case Silent => c' == c
    case Accept(m) => |c.waiting| < c.capacity && c' == c.(waiting := c.waiting + [m])
    case Refuse(_) => |c.waiting| == c.capacity && c' == c
    case Take => c.waiting != [] && c.inHand.None? && c' == c.(waiting := c.waiting[1..], inHand := Some(c.waiting[0]))
    case Answer(m) => c.inHand == Some(m) && c' == c.(inHand := None)
    case Peek(m) => c.waiting != [] && m == c.waiting[0] && c' == c
    case Emptiness(b) => (b <==> c.waiting == []) && c' == c
  }

  // ----- the ring

  predicate InRange<T>(s: Ring<T>) {
    s.r < |s.slots| && s.w < |s.slots|
  }

  function Next(size: nat, i: nat): nat
    requires i < size
  {
    Fold(size, i + 1)
  }

  /** The read index after a pop: as written it is never folded back. */
  function Advance(wraps: bool, size: nat, r: nat): nat
    requires r < size
  {
    if wraps then Next(size, r) else r + 1
  }

  ghost predicate Init<T>(s: Ring<T>) {
    && 0 < |s.slots| && (forall i :: 0 <= i < |s.slots| ==> s.slots[i] == Unset)
    && s.r == 0 && s.w == 0 && s.producer == Resting && s.consumer == Waiting
  }

  /** Loading a slot that was never written may yield anything. */
  ghost predicate Loads<T>(slot: Slot<T>, v: T) {
    slot.Holding? ==> v == slot.value
  }

  /**
   An operation starts with the range assertion: where it fails nothing more is started, and
   what is under way in either thread still goes on.
   */
  ghost predicate ProducerStep<T(!new)>(s: Ring<T>, s': Ring<T>, l: Label<T>) {
    && s.w < |s.slots|
    && match s.producer
       case Resting =>
         InRange(s) &&
         (|| (l == Silent && exists m :: s' == s.(producer := Checking(m)))
          || (l == Emptiness(s.r == s.w) && s' == s))
       case Checking(m) =>
         if Next(|s.slots|, s.w) == s.r
         then l == Refuse(m) && s' == s.(producer := Resting)
         else l == Silent && s' == s.(producer := Storing(m))
       case Storing(m) =>
         l == Silent && s' == s.(slots := s.slots[s.w := Holding(m)], producer := Publishing(m))
       case Publishing(m) =>
         l == Accept(m) && s' == s.(w := Next(|s.slots|, s.w), producer := Resting)
  }

  ghost predicate ConsumerStep<T(!new)>(s: Ring<T>, s': Ring<T>, l: Label<T>) {
    match s.consumer
    case Waiting =>
      InRange(s) &&
      (|| (l == Silent && exists peek :: s' == s.(consumer := Looking(peek)))
       || (l == Emptiness(s.r == s.w) && s' == s))
    case Looking(peek) =>
      if s.r == s.w
      then l == Emptiness(true) && s' == s.(consumer := Waiting)
      else l == Silent && s' == s.(consumer := if peek then Peeking else Taking)
    case Peeking =>
      exists v :: s.r < |s.slots| && Loads(s.slots[s.r], v) && l == Peek(v) && s' == s.(consumer := Waiting)
    case Taking =>
      || (exists v :: s.r < |s.slots| && Loads(s.slots[s.r], v) && l == Silent && s' == s.(consumer := Loaded(v)))
      || (s.r < |s.slots| && l == Take && s' == s.(r := Advance(s.wraps, |s.slots|, s.r), consumer := Moved(s.r)))
    case Loaded(v) =>
      s.r < |s.slots| && l == Take && s' == s.(r := Advance(s.wraps, |s.slots|, s.r), consumer := Returning(v))
    case Moved(i) =>
      exists v :: i < |s.slots| && Loads(s.slots[i], v) && l == Answer(v) && s' == s.(consumer := Waiting)
    case Returning(v) => l == Answer(v) && s' == s.(consumer := Waiting)
  }

  ghost predicate RingNext<T(!new)>(s: Ring<T>, s': Ring<T>, l: Label<T>) {
    ProducerStep(s, s', l) || ConsumerStep(s, s', l)
  }

  // ----- refinement

  ghost predicate Occupied<T(!new)>(slots: seq<Slot<T>>, r: nat, w: nat) {
    exists c :: RingHolds(slots, r, w, c)
  }

  /** The messages between the two indices, read off the slots. */
  ghost function Between<T(!new)>(slots: seq<Slot<T>>, r: nat, w: nat): (c: seq<T>)
    requires Occupied(slots, r, w)
    ensures RingHolds(slots, r, w, c)
  {
    var c :| RingHolds(slots, r, w, c); c
  }

  lemma BetweenIs<T(!new)>(slots: seq<Slot<T>>, r: nat, w: nat, c: seq<T>)
    requires RingHolds(slots, r, w, c)
    ensures Occupied(slots, r, w) && Between(slots, r, w) == c
  {
    var d := Between(slots, r, w);
    forall i | 0 <= i < |c| ensures c[i] == d[i] {
      assert slots[Fold(|slots|, r + i)] == Holding(c[i]);
      assert slots[Fold(|slots|, r + i)] == Holding(d[i]);
    }
  }

  /** The read index as it falls into the array; spent, it stands for the first slot. */
  function Start<T>(s: Ring<T>): nat
    requires s.r <= |s.slots| && 0 < |s.slots|
  {
    Fold(|s.slots|, s.r)
  }

  ghost predicate Inv<T(!new)>(s: Ring<T>) {
    && s.w < |s.slots| && (if s.wraps then s.r < |s.slots| else s.r <= |s.slots|)
    && Occupied(s.slots, Start(s), s.w)
    && var waiting := Between(s.slots, Start(s), s.w);
    && (s.producer.Storing? || s.producer.Publishing? ==> |waiting| < |s.slots| - 1)
    && (s.producer.Publishing? ==> s.slots[s.w] == Holding(s.producer.m))
    // a push that finds the index spent has room: the pop that spent it made some
    && (s.producer.Checking? && s.r == |s.slots| ==> |waiting| < |s.slots| - 1)
    && (s.consumer.Looking? ==> s.r < |s.slots|)
    && (s.consumer.Peeking? || s.consumer.Taking? ==> s.r < |s.slots| && waiting != [])
    && (s.consumer.Loaded? ==> s.r < |s.slots| && waiting != [] && s.consumer.v == waiting[0])
    // the slot just given up is the one gap the producer may not enter
    && (s.consumer.Moved? ==>
          var i := s.consumer.i;
          i < |s.slots| && s.slots[i].Holding? && Next(|s.slots|, i) == Start(s))
  }

  ghost function Abs<T(!new)>(s: Ring<T>): Channel<T>
    requires Inv(s)
  {
    Channel(|s.slots| - 1, Between(s.slots, Start(s), s.w),
            if s.consumer.Returning? then Some(s.consumer.v)
            else if s.consumer.Moved? then Some(s.slots[s.consumer.i].value)
            else None)
  }

  lemma InitRefines<T(!new)>(s: Ring<T>)
    requires Init(s)
    ensures Inv(s) && Abs(s) == Channel(|s.slots| - 1, [], None)
  {
    BetweenIs(s.slots, 0, 0, []);
  }

  /** What the two indices say about how many messages wait. */
  lemma IndicesTell<T(!new)>(slots: seq<Slot<T>>, r: nat, w: nat, c: seq<T>)
    requires RingHolds(slots, r, w, c)
    ensures c == [] <==> r == w
    ensures Next(|slots|, w) == r <==> |c| == |slots| - 1
    ensures |c| <= |slots| - 1
  {
  }

  /** Writing the slot at the write index disturbs no waiting message, and with room left not the gap either. */
  lemma StoreIsUnseen<T(!new)>(slots: seq<Slot<T>>, r: nat, w: nat, c: seq<T>, m: T)
    requires RingHolds(slots, r, w, c) && |c| < |slots| - 1
    ensures RingHolds(slots[w := Holding(m)], r, w, c)
    ensures forall i :: 0 <= i < |slots| && Next(|slots|, i) == r ==> i != w
  {
  }

  lemma ProducerLooks<T(!new)>(s: Ring<T>, s': Ring<T>, l: Label<T>)
    requires Inv(s) && ProducerStep(s, s', l) && (s.producer.Resting? || s.producer.Checking?)
    ensures Inv(s') && ChannelNext(Abs(s), Abs(s'), l)
  {
    hide RingHolds;
    IndicesTell(s.slots, Start(s), s.w, Between(s.slots, Start(s), s.w));
  }

  lemma ProducerWrites<T(!new)>(s: Ring<T>, s': Ring<T>, l: Label<T>)
    requires Inv(s) && ProducerStep(s, s', l) && (s.producer.Storing? || s.producer.Publishing?)
    ensures Inv(s') && ChannelNext(Abs(s), Abs(s'), l)
  {
    hide RingHolds;
    var waiting, m := Between(s.slots, Start(s), s.w), s.producer.m;
    IndicesTell(s.slots, Start(s), s.w, waiting);
    if s.producer.Storing? {
      StoreIsUnseen(s.slots, Start(s), s.w, waiting, m);
      BetweenIs(s'.slots, Start(s'), s'.w, waiting);
    } else {
      RingHoldsPush(s.slots, Start(s), s.w, waiting, m);
      assert s.slots[s.w := Holding(m)] == s.slots;
      BetweenIs(s'.slots, Start(s'), s'.w, waiting + [m]);
    }
  }

  lemma ConsumerMoves<T(!new)>(s: Ring<T>, s': Ring<T>, l: Label<T>)
    requires Inv(s) && ConsumerStep(s, s', l) && l.Take?
    ensures Inv(s') && ChannelNext(Abs(s), Abs(s'), l)
  {
    hide RingHolds;
    var waiting := Between(s.slots, s.r, s.w);
    IndicesTell(s.slots, s.r, s.w, waiting);
    RingHoldsPop(s.slots, s.r, s.w, waiting);
    BetweenIs(s.slots, Next(|s.slots|, s.r), s.w, waiting[1..]);
  }

  lemma ConsumerStays<T(!new)>(s: Ring<T>, s': Ring<T>, l: Label<T>)
    requires Inv(s) && ConsumerStep(s, s', l) && !l.Take?
    ensures Inv(s') && ChannelNext(Abs(s), Abs(s'), l)
  {
    hide RingHolds;
    var waiting := Between(s.slots, Start(s), s.w);
    IndicesTell(s.slots, Start(s), s.w, waiting);
    if s.r != s.w && s.r < |s.slots| {
      RingHoldsPop(s.slots, s.r, s.w, waiting);
    }
  }

  /** Every step of every interleaving is a step of the channel. */
  lemma StepRefines<T(!new)>(s: Ring<T>, s': Ring<T>, l: Label<T>)
    requires Inv(s) && RingNext(s, s', l)
    ensures Inv(s') && ChannelNext(Abs(s), Abs(s'), l)
  {
    hide Inv, ConsumerStep, ProducerStep, ChannelNext;
    if ProducerStep(s, s', l) {
      if s.producer.Resting? || s.producer.Checking? {
        ProducerLooks(s, s', l);
      } else {
        ProducerWrites(s, s', l);
      }
    } else if l.Take? {
      ConsumerMoves(s, s', l);
    } else {
      ConsumerStays(s, s', l);
    }
  }

  // ----- whole runs

  /** `run` holds the states, `ls` the labels between them. */
  ghost predicate RingRun<T(!new)>(run: seq<Ring<T>>, ls: seq<Label<T>>) {
    && |run| == |ls| + 1
    && Init(run[0])
    && forall i :: 0 <= i < |ls| ==> RingNext(run[i], run[i + 1], ls[i])
  }

  function Accepts<T>(ls: seq<Label<T>>): seq<T> {
    if ls == [] then []
    else Accepts(ls[..|ls| - 1]) + (var l := ls[|ls| - 1]; if l.Accept? then [l.m] else [])
  }

  function Answers<T>(ls: seq<Label<T>>): seq<T> {
    if ls == [] then []
    else Answers(ls[..|ls| - 1]) + (var l := ls[|ls| - 1]; if l.Answer? then [l.m] else [])
  }

  function Held<T>(o: Option<T>): seq<T> {
    if o.None? then [] else [o.value]
  }

  /**
   Over every run, up to the last step before the abort where there is one: what was accepted
   is what was answered, then what is in the consumer's hand, then what waits; and never more
   than `maxsize - 1` wait.
   */
  lemma {:induction false} RunIsFifo<T(!new)>(run: seq<Ring<T>>, ls: seq<Label<T>>)
    requires RingRun(run, ls)
    ensures Inv(run[|ls|])
    ensures var c := Abs(run[|ls|]);
            && Accepts(ls) == Answers(ls) + Held(c.inHand) + c.waiting
            && |c.waiting| <= c.capacity == |run[0].slots| - 1
    decreases |ls|
  {
    if ls == [] {
      InitRefines(run[0]);
    } else {
      hide RingNext, Init, ChannelNext, Accepts, Answers, Inv, Abs;
      var n := |ls| - 1;
      RunBeginning(run, ls);
      assert RingNext(run[n], run[n + 1], ls[n]);
      StepKeepsSize(run[n], run[n + 1], ls[n]);
      RunIsFifo(run[..n + 1], ls[..n]);
      StepRefines(run[n], run[n + 1], ls[n]);
      ChannelKeepsOrder(Abs(run[n]), Abs(run[n + 1]), ls[..n], ls[n]);
      assert ls == ls[..n] + [ls[n]];
      AbsIsBounded(run[n + 1]);
    }
  }

  lemma AbsIsBounded<T(!new)>(s: Ring<T>)
    requires Inv(s)
    ensures |Abs(s).waiting| <= Abs(s).capacity == |s.slots| - 1
  {
    IndicesTell(s.slots, Start(s), s.w, Abs(s).waiting);
  }

  lemma RunBeginning<T(!new)>(run: seq<Ring<T>>, ls: seq<Label<T>>)
    requires RingRun(run, ls) && ls != []
    ensures RingRun(run[..|ls|], ls[..|ls| - 1])
  {
    hide RingNext, Init;
    var n := |ls| - 1;
    var run', ls' := run[..n + 1], ls[..n];
    forall i | 0 <= i < n ensures RingNext(run'[i], run'[i + 1], ls'[i]) {
      assert RingNext(run[i], run[i + 1], ls[i]);
    }
  }

  lemma StepKeepsSize<T(!new)>(s: Ring<T>, s': Ring<T>, l: Label<T>)
    requires RingNext(s, s', l)
    ensures |s'.slots| == |s.slots|
  {
  }

  lemma ChannelKeepsOrder<T(!new)>(c: Channel<T>, c': Channel<T>, ls: seq<Label<T>>, l: Label<T>)
    requires ChannelNext(c, c', l)
    requires Accepts(ls) == Answers(ls) + Held(c.inHand) + c.waiting
    ensures Accepts(ls + [l]) == Answers(ls + [l]) + Held(c'.inHand) + c'.waiting
  {
    assert (ls + [l])[..|ls|] == ls;
  }

  /** With the wrap no run leaves the range, so every interleaving of every length is covered. */
  lemma {:induction false} WrapStaysInRange<T(!new)>(run: seq<Ring<T>>, ls: seq<Label<T>>, k: nat)
    requires RingRun(run, ls) && run[0].wraps && k <= |ls|
    ensures InRange(run[k]) && run[k].wraps
  {
    if k > 0 {
      WrapStaysInRange(run, ls, k - 1);
      assert RingNext(run[k - 1], run[k], ls[k - 1]);
    }
  }

  function Takes<T>(ls: seq<Label<T>>): nat {
    if ls == [] then 0 else Takes(ls[..|ls| - 1]) + (if ls[|ls| - 1].Take? then 1 else 0)
  }

  lemma AsWrittenStep<T(!new)>(s: Ring<T>, s': Ring<T>, l: Label<T>)
    requires RingNext(s, s', l) && !s.wraps && s.w < |s.slots| && s.r <= |s.slots|
    ensures !s'.wraps && |s'.slots| == |s.slots| && s'.w < |s'.slots|
    ensures s'.r == s.r + (if l.Take? then 1 else 0) <= |s.slots|
  {
  }

  /** As written the read index counts the pops: the assertion holds exactly while they are fewer than `maxsize`, and they are never more. */
  lemma {:induction false} AsWrittenRange<T(!new)>(run: seq<Ring<T>>, ls: seq<Label<T>>, k: nat)
    requires RingRun(run, ls) && !run[0].wraps && k <= |ls|
    ensures !run[k].wraps && |run[k].slots| == |run[0].slots| && run[k].w < |run[k].slots|
    ensures run[k].r == Takes(ls[..k]) <= |run[0].slots|
    ensures InRange(run[k]) <==> Takes(ls[..k]) < |run[0].slots|
  {
    if k == 0 {
      assert ls[..0] == [];
    } else {
      hide RingNext, Init;
      AsWrittenRange(run, ls, k - 1);
      assert RingNext(run[k - 1], run[k - 1 + 1], ls[k - 1]);
      AsWrittenStep(run[k - 1], run[k], ls[k - 1]);
      assert ls[..k][..k - 1] == ls[..k - 1];
    }
  }
}
