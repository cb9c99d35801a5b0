/**
 Timers as values: the ordered list, the operations callbacks may use, and the run loop.

 A script lists, firing by firing, what the Lua callbacks do. It is as long as the run it
 describes, so a run that never ends shows as one that uses up every script.
 */
module TimerSpec {

  const TIME_RANGE: nat := 0x1_0000_0000_0000_0000

  /** `id` tells timers apart, `born` is when the timer was made. */
  datatype Entry = Entry(id: nat, born: nat, interval: nat, expire: nat, forever: bool, ref: int)

  /** Unsigned 64-bit addition. */
  function Later(time: nat, interval: nat): nat {
    (time + interval) % TIME_RANGE
  }

  datatype Op = NewTimer(clock: nat, interval: nat, forever: bool, ref: int) | RemoveTimer(ref: int)

  /** The list, and the next unused id. */
  datatype Timers = Timers(list: seq<Entry>, next: nat)

  // ----- the ordered list

  ghost predicate Sorted(list: seq<Entry>) {
    forall i, j :: 0 <= i < j < |list| ==> list[i].expire <= list[j].expire
  }

  /** How many leading entries expire no later than `time`. */
  function Place(list: seq<Entry>, time: nat): (k: nat)
    ensures k <= |list|
    ensures forall i :: 0 <= i < k ==> list[i].expire <= time
    ensures k < |list| ==> time < list[k].expire
  {
    if list == [] || time < list[0].expire then 0 else 1 + Place(list[1..], time)
  }

  lemma PlaceIs(list: seq<Entry>, time: nat, k: nat)
    requires k <= |list|
    requires forall i :: 0 <= i < k ==> list[i].expire <= time
    requires k < |list| ==> time < list[k].expire
    ensures Place(list, time) == k
  {
  }

  function Insert(list: seq<Entry>, e: Entry): seq<Entry> {
    var k := Place(list, e.expire);
    list[..k] + [e] + list[k..]
  }

  lemma SortedAround(a: seq<Entry>, e: Entry, b: seq<Entry>)
    requires Sorted(a + b)
    requires forall i :: 0 <= i < |a| ==> a[i].expire <= e.expire
    requires forall i :: 0 <= i < |b| ==> e.expire <= b[i].expire
    ensures Sorted(a + [e] + b)
  {
    var s, r := a + b, a + [e] + b;
    forall i, j | 0 <= i < j < |r| ensures r[i].expire <= r[j].expire {
      var i', j' := if i < |a| then i else i - 1, if j < |a| then j else j - 1;
      if i != |a| && j != |a| {
        assert r[i] == s[i'] && r[j] == s[j'];
      }
    }
  }

  /** In an ordered list the place splits what expires by then from what expires later. */
  lemma PlaceSplits(list: seq<Entry>, time: nat)
    requires Sorted(list)
    ensures forall i :: 0 <= i < |list| ==> (list[i].expire <= time <==> i < Place(list, time))
  {
    hide Place;
    var k := Place(list, time);
    forall i | k <= i < |list| ensures time < list[i].expire {
      assert list[k].expire <= list[i].expire;
    }
  }

  /** Insertion keeps the order and goes behind everything that expires at the same time. */
  lemma InsertKeepsOrder(list: seq<Entry>, e: Entry)
    requires Sorted(list)
    ensures Sorted(Insert(list, e))
    ensures forall i :: 0 <= i < |list| ==> (list[i].expire <= e.expire <==> i < Place(list, e.expire))
  {
    hide Place, Sorted;
    PlaceSplits(list, e.expire);
    var k := Place(list, e.expire);
    assert list[..k] + list[k..] == list;
    SortedAround(list[..k], e, list[k..]);
  }

  /** Where the first timer with that reference is, or the length of the list. */
  function IndexOf(list: seq<Entry>, ref: int): (k: nat)
    ensures k <= |list|
    ensures forall i :: 0 <= i < k ==> list[i].ref != ref
    ensures k < |list| ==> list[k].ref == ref
  {
    if list == [] || list[0].ref == ref then 0 else 1 + IndexOf(list[1..], ref)
  }

  lemma IndexOfIs(list: seq<Entry>, ref: int, k: nat)
    requires k <= |list|
    requires forall i :: 0 <= i < k ==> list[i].ref != ref
    requires k < |list| ==> list[k].ref == ref
    ensures IndexOf(list, ref) == k
  {
  }

  function RemoveAt(list: seq<Entry>, k: nat): seq<Entry>
    requires k < |list|
  {
    list[..k] + list[k + 1..]
  }

  // ----- operations, firing, running

  function Created(ts: Timers, op: Op): Entry
    requires op.NewTimer?
  {
    Entry(ts.next, op.clock, op.interval, Later(op.clock, op.interval), op.forever, op.ref)
  }

  function Do(ts: Timers, op: Op): Timers {
    match op
    case NewTimer(_, _, _, _) => Timers(Insert(ts.list, Created(ts, op)), ts.next + 1)
    case RemoveTimer(ref) =>
      var k := IndexOf(ts.list, ref);
      if k < |ts.list| then ts.(list := RemoveAt(ts.list, k)) else ts
  }

  function DoAll(ts: Timers, ops: seq<Op>): Timers
    decreases |ops|
  {
    if ops == [] then ts else DoAll(Do(ts, ops[0]), ops[1..])
  }

  predicate HeadDue(ts: Timers, now: nat) {
    ts.list != [] && ts.list[0].expire <= now
  }

  /** The head is detached, its callback runs, and a repeating timer is listed again. */
  function Fire(ts: Timers, now: nat, ops: seq<Op>): Timers
    requires ts.list != []
  {
    var h := ts.list[0];
    var after := DoAll(ts.(list := ts.list[1..]), ops);
    if h.forever then after.(list := Insert(after.list, h.(expire := Later(now, h.interval)))) else after
  }

  datatype Outcome = Outcome(timers: Timers, fired: seq<Entry>)

  function Run(ts: Timers, now: nat, script: seq<seq<Op>>): Outcome
    decreases |script|
  {
    if script == [] || !HeadDue(ts, now) then Outcome(ts, [])
    else
      var o := Run(Fire(ts, now, script[0]), now, script[1..]);
      Outcome(o.timers, [ts.list[0]] + o.fired)
  }

  // ----- which timers a callback takes away before their turn

  function Cut(ts: Timers, now: nat, op: Op): set<nat> {
    if op.NewTimer? then {}
    else
      var k := IndexOf(ts.list, op.ref);
      if k < |ts.list| && ts.list[k].expire <= now then {ts.list[k].id} else {}
  }

  function CutAll(ts: Timers, now: nat, ops: seq<Op>): set<nat>
    decreases |ops|
  {
    if ops == [] then {} else Cut(ts, now, ops[0]) + CutAll(Do(ts, ops[0]), now, ops[1..])
  }

  function CutInRun(ts: Timers, now: nat, script: seq<seq<Op>>): set<nat>
    decreases |script|
  {
    if script == [] || !HeadDue(ts, now) then {}
    else CutAll(ts.(list := ts.list[1..]), now, script[0]) + CutInRun(Fire(ts, now, script[0]), now, script[1..])
  }

  function Without(list: seq<Entry>, ids: set<nat>): seq<Entry> {
    if list == [] then []
    else (if list[0].id in ids then [] else [list[0]]) + Without(list[1..], ids)
  }
}
