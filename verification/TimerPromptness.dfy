/**
 When timers fire: at the first pass that comes no earlier than their time, neither before
 nor after. Times are 64-bit; everything is stated in plain sums.
 */
module TimerPromptness {
  import opened TimerSpec
  import opened TimerRuns

  // ----- what is listed

  /** A new timer is listed with what it was made with, to expire one interval after the clock was read. */
  lemma NewIsListed(ts: Timers, clock: nat, interval: nat, forever: bool, ref: int)
    ensures var e := Entry(ts.next, clock, interval, (clock + interval) % TIME_RANGE, forever, ref);
            var after := Do(ts, NewTimer(clock, interval, forever, ref));
            && (forall x :: x in after.list <==> x in ts.list || x == e)
            && |after.list| == |ts.list| + 1 && after.next == ts.next + 1
  {
    var e := Created(ts, NewTimer(clock, interval, forever, ref));
    forall x ensures x in Insert(ts.list, e) <==> x in ts.list || x == e {
      InList(ts.list, x, e);
    }
  }

  /** Of the timers with that reference, if any, exactly one that expires first is removed. */
  lemma RemovedIsFirst(ts: Timers, ref: int)
    requires WellFormed(ts)
    ensures var after := Do(ts, RemoveTimer(ref));
            && after.next == ts.next
            && if forall x :: x in ts.list ==> x.ref != ref then after == ts
               else exists e :: e in ts.list && e.ref == ref && TakenOut(ts.list, after.list, e)
                                && forall x :: x in ts.list && x.ref == ref ==> e.expire <= x.expire
  {
    var k := IndexOf(ts.list, ref);
    if k < |ts.list| {
      var e := ts.list[k];
      assert e in ts.list;
      OneTakenOut(ts, k);
      forall x | x in ts.list && x.ref == ref ensures e.expire <= x.expire {
        var i :| 0 <= i < |ts.list| && ts.list[i] == x;
      }
    }
  }

  ghost predicate TakenOut(list: seq<Entry>, after: seq<Entry>, e: Entry) {
    forall x :: x in after <==> x in list && x != e
  }

  lemma OneTakenOut(ts: Timers, k: nat)
    requires WellFormed(ts) && k < |ts.list|
    ensures TakenOut(ts.list, RemoveAt(ts.list, k), ts.list[k])
  {
    var list := ts.list;
    forall x ensures x in RemoveAt(list, k) <==> x in list && x != list[k] {
      assert list == list[..k] + [list[k]] + list[k + 1..];
      if x in list[..k] {
        var j :| 0 <= j < k && list[j] == x;
        assert list[j].id != list[k].id;
      } else if x in list[k + 1..] {
        var j :| k < j < |list| && list[j] == x;
        assert list[k].id != list[j].id;
      }
    }
  }

  /** When a timer was last wound up: at its last firing, or when it was made. */
  function Since(log: seq<Firing>, id: nat, born: nat): nat {
    if log == [] then born
    else
      var f := log[|log| - 1];
      if f.e.id == id then f.now else Since(log[..|log| - 1], id, born)
  }

  predicate OnTime(log: seq<Firing>, e: Entry) {
    e.expire == (Since(log, e.id, e.born) + e.interval) % TIME_RANGE
  }

  /** Every listed timer expires one interval after it was last wound up. */
  ghost predicate Clocked(w: World) {
    && WellFormed(w.timers)
    && (forall e :: e in w.timers.list ==> OnTime(w.log, e))
    && (forall j :: 0 <= j < |w.log| ==> w.log[j].e.id < w.timers.next)
  }

  lemma {:induction false} NeverFired(log: seq<Firing>, id: nat, born: nat)
    requires forall j :: 0 <= j < |log| ==> log[j].e.id < id
    ensures Since(log, id, born) == born
  {
    if log != [] {
      NeverFired(log[..|log| - 1], id, born);
    }
  }

  lemma DoClocked(w: World, op: Op)
    requires Clocked(w)
    ensures Clocked(w.(timers := Do(w.timers, op)))
  {
    hide WellFormed, OnTime, Insert;
    var ts := w.timers;
    DoKeeps(ts, op);
    match op {
      case NewTimer(clock, interval, forever, ref) =>
        NewIsListed(ts, clock, interval, forever, ref);
        NewIsOnTime(w, clock, interval, forever, ref);
      case RemoveTimer(ref) =>
        var k := IndexOf(ts.list, ref);
        if k < |ts.list| {
          assert ts.list == ts.list[..k] + [ts.list[k]] + ts.list[k + 1..];
        }
    }
  }

  lemma NewIsOnTime(w: World, clock: nat, interval: nat, forever: bool, ref: int)
    requires Clocked(w)
    ensures OnTime(w.log, Entry(w.timers.next, clock, interval, (clock + interval) % TIME_RANGE, forever, ref))
  {
    NeverFired(w.log, w.timers.next, clock);
  }

  lemma {:induction false} DoAllClocked(w: World, ops: seq<Op>)
    requires Clocked(w)
    ensures Clocked(w.(timers := DoAll(w.timers, ops)))
    decreases |ops|
  {
    if ops != [] {
      hide Clocked, Do;
      DoClocked(w, ops[0]);
      DoAllClocked(w.(timers := Do(w.timers, ops[0])), ops[1..]);
    }
  }

  lemma SinceMore(log: seq<Firing>, f: Firing, id: nat, born: nat)
    ensures Since(log + [f], id, born) == if f.e.id == id then f.now else Since(log, id, born)
  {
    assert (log + [f])[..|log|] == log;
  }

  /** Detaching the head and logging it. */
  lemma DetachClocked(w: World, now: nat)
    requires Clocked(w) && w.timers.list != []
    ensures Clocked(World(w.timers.(list := w.timers.list[1..]), w.log + [Firing(w.timers.list[0], now)]))
  {
    var ts, h := w.timers, w.timers.list[0];
    var f := Firing(h, now);
    var log := w.log + [f];
    Detach(ts);
    ListedHere(ts.list, 0);
    assert h.id < ts.next;
    hide Since;
    forall e | e in ts.list[1..] ensures OnTime(log, e) {
      var i :| 0 <= i < |ts.list[1..]| && ts.list[1..][i] == e;
      assert ts.list[0].id != ts.list[i + 1].id;
      assert OnTime(w.log, ts.list[i + 1]);
      SinceMore(w.log, f, e.id, e.born);
    }
  }

  lemma RewoundIsOnTime(log: seq<Firing>, h: Entry, now: nat)
    ensures OnTime(log + [Firing(h, now)], h.(expire := (now + h.interval) % TIME_RANGE))
  {
    SinceMore(log, Firing(h, now), h.id, h.born);
  }

  lemma FireClocked(w: World, now: nat, ops: seq<Op>)
    requires Clocked(w) && w.timers.list != []
    ensures Clocked(World(Fire(w.timers, now, ops), w.log + [Firing(w.timers.list[0], now)]))
  {
    hide WellFormed, Insert, DoAll, OnTime;
    var ts, h := w.timers, w.timers.list[0];
    var rest := World(ts.(list := ts.list[1..]), w.log + [Firing(h, now)]);
    DetachClocked(w, now);
    FireKeeps(ts, now, ops);
    DoAllClocked(rest, ops);
    RewoundIsOnTime(w.log, h, now);
    var after := DoAll(rest.timers, ops);
    forall e | e in Fire(ts, now, ops).list ensures OnTime(rest.log, e) {
      InList(after.list, e, h.(expire := (now + h.interval) % TIME_RANGE));
    }
  }

  lemma {:induction false} RunClocked(w: World, now: nat, script: seq<seq<Op>>)
    requires Clocked(w)
    ensures var o := Run(w.timers, now, script); Clocked(World(o.timers, w.log + Stamp(o.fired, now)))
    decreases |script|
  {
    hide Clocked, Fire;
    if script == [] || !HeadDue(w.timers, now) {
      assert w.log + Stamp([], now) == w.log;
    } else {
      var h := w.timers.list[0];
      FireClocked(w, now, script[0]);
      var w' := World(Fire(w.timers, now, script[0]), w.log + [Firing(h, now)]);
      RunClocked(w', now, script[1..]);
      var o := Run(w'.timers, now, script[1..]);
      assert w'.log + Stamp(o.fired, now) == w.log + Stamp([h] + o.fired, now);
    }
  }

  /** Over everything the worker does, overflows included, every listed timer expires one interval after it was last wound up. */
  lemma {:induction false} AlwaysClocked(events: seq<Event>)
    ensures Clocked(History(events))
  {
    if events != [] {
      hide DoAll, Run, Stamp, Clocked;
      var n := |events| - 1;
      AlwaysClocked(events[..n]);
      var w := History(events[..n]);
      match events[n]
      case Handler(ops) => DoAllClocked(w, ops);
      case Pass(now, script) => RunClocked(w, now, script);
    }
  }

  // ----- one pass

  /** A firing concerns a listed timer only if it is the one that fires, or if its reference is removed. */
  lemma FireSpares(ts: Timers, now: nat, ops: seq<Op>, e: Entry)
    requires ts.list != [] && e in ts.list[1..] && Spares(e.ref, ops)
    ensures e in Fire(ts, now, ops).list
  {
    hide Insert, DoAll;
    var h, rest := ts.list[0], ts.(list := ts.list[1..]);
    DoAllSpares(rest, ops, e);
    InList(DoAll(rest, ops).list, e, h.(expire := Later(now, h.interval)));
  }

  /** A timer whose time has not come does not fire and stays listed. */
  lemma {:induction false} NotYet(ts: Timers, now: nat, script: seq<seq<Op>>, e: Entry)
    requires e in ts.list && AllSpare(e.ref, script) && now < e.expire
    ensures var o := Run(ts, now, script); e in o.timers.list && e !in o.fired
    decreases |script|
  {
    if script != [] && HeadDue(ts, now) {
      hide Fire, Spares;
      assert ts.list == [ts.list[0]] + ts.list[1..];
      FireSpares(ts, now, script[0], e);
      NotYet(Fire(ts, now, script[0]), now, script[1..], e);
    }
  }

  /** A timer whose time has come fires in any pass that ends. */
  lemma {:induction false} Now(ts: Timers, now: nat, script: seq<seq<Op>>, e: Entry)
    requires WellFormed(ts) && e in ts.list && AllSpare(e.ref, script) && e.expire <= now
    requires !HeadDue(Run(ts, now, script).timers, now)
    ensures e in Run(ts, now, script).fired
    decreases |script|
  {
    DueHead(ts, now, e);
    hide WellFormed, Fire, Spares;
    if e != ts.list[0] {
      FireKeeps(ts, now, script[0]);
      FireSpares(ts, now, script[0], e);
      Now(Fire(ts, now, script[0]), now, script[1..], e);
    }
  }

  /** A repeating timer that fires is listed again for one interval later. */
  lemma {:induction false} Rewound(ts: Timers, now: nat, script: seq<seq<Op>>, e: Entry)
    requires WellFormed(ts) && e in ts.list && AllSpare(e.ref, script) && e.expire <= now
    requires !HeadDue(Run(ts, now, script).timers, now)
    requires e.forever && 1 <= e.interval && now + e.interval < TIME_RANGE
    ensures e.(expire := now + e.interval) in Run(ts, now, script).timers.list
    decreases |script|
  {
    hide WellFormed, Fire, Spares, Later;
    DueHead(ts, now, e);
    var next, rest := Fire(ts, now, script[0]), script[1..];
    assert Run(ts, now, script).timers == Run(next, now, rest).timers;
    assert Spares(e.ref, script[0]) && AllSpare(e.ref, rest);
    hide Run, AllSpare, HeadDue;
    if e == ts.list[0] {
      RewoundAtOnce(ts, now, script[0]);
      NotYet(next, now, rest, e.(expire := now + e.interval));
    } else {
      FireKeeps(ts, now, script[0]);
      FireSpares(ts, now, script[0], e);
      Rewound(next, now, rest, e);
    }
  }

  lemma RewoundAtOnce(ts: Timers, now: nat, ops: seq<Op>)
    requires ts.list != [] && ts.list[0].forever && now + ts.list[0].interval < TIME_RANGE
    ensures ts.list[0].(expire := now + ts.list[0].interval) in Fire(ts, now, ops).list
  {
    NothingStopsIt(ts, now, ops);
  }

  lemma DueHead(ts: Timers, now: nat, e: Entry)
    requires WellFormed(ts) && e in ts.list && e.expire <= now
    ensures HeadDue(ts, now) && (e == ts.list[0] || e in ts.list[1..])
  {
    var i :| 0 <= i < |ts.list| && ts.list[i] == e;
    assert ts.list == [ts.list[0]] + ts.list[1..];
  }

  // ----- from one event to the pass that matters

  /** Nothing removes timers of that reference, and no pass comes at or after `time`. */
  predicate Quiet(ref: int, time: nat, ev: Event) {
    match ev
    case Handler(ops) => Spares(ref, ops)
    case Pass(now, script) => AllSpare(ref, script) && now < time
  }

  lemma {:induction false} StillListed(events: seq<Event>, more: seq<Event>, e: Entry)
    requires e in History(events).timers.list
    requires forall i :: 0 <= i < |more| ==> Quiet(e.ref, e.expire, more[i])
    ensures e in History(events + more).timers.list
    decreases |more|
  {
    if more == [] {
      assert events + more == events;
    } else {
      var n := |more| - 1;
      StillListed(events, more[..n], e);
      var all := events + more;
      assert all[..|all| - 1] == events + more[..n] && all[|all| - 1] == more[n];
      hide DoAll, Run, Spares;
      var ts := History(events + more[..n]).timers;
      match more[n]
      case Handler(ops) => DoAllSpares(ts, ops, e);
      case Pass(now, script) => NotYet(ts, now, script, e);
    }
  }

  /**
   Promptness: from any moment on, a listed timer that nobody removes fires in a pass, the
   first that is not before its time, exactly if the pass is not before its time.
   */
  lemma FiresOnTime(events: seq<Event>, e: Entry, more: seq<Event>, now: nat, script: seq<seq<Op>>)
    requires e in History(events).timers.list
    requires forall i :: 0 <= i < |more| ==> Quiet(e.ref, e.expire, more[i])
    requires AllSpare(e.ref, script) && !HeadDue(Run(History(events + more).timers, now, script).timers, now)
    ensures e in Run(History(events + more).timers, now, script).fired <==> e.expire <= now
  {
    hide WellFormed, Run, History;
    StillListed(events, more, e);
    HistoryKeepsOrder(events + more);
    var ts := History(events + more).timers;
    if e.expire <= now {
      Now(ts, now, script, e);
    } else {
      NotYet(ts, now, script, e);
    }
  }

  /** A timer made at `clock` fires in the first pass at or after `clock + interval`. */
  lemma FirstFiring(events: seq<Event>, a: seq<Op>, clock: nat, interval: nat, forever: bool, ref: int, b: seq<Op>,
                    more: seq<Event>, now: nat, script: seq<seq<Op>>)
    requires clock + interval < TIME_RANGE && Spares(ref, b)
    requires forall i :: 0 <= i < |more| ==> Quiet(ref, clock + interval, more[i])
    requires var made := events + [Handler(a + [NewTimer(clock, interval, forever, ref)] + b)];
             AllSpare(ref, script) && !HeadDue(Run(History(made + more).timers, now, script).timers, now)
    ensures var made := events + [Handler(a + [NewTimer(clock, interval, forever, ref)] + b)];
            var id := DoAll(History(events).timers, a).next;
            Entry(id, clock, interval, clock + interval, forever, ref) in Run(History(made + more).timers, now, script).fired
            <==> clock + interval <= now
  {
    var op := NewTimer(clock, interval, forever, ref);
    var made := events + [Handler(a + [op] + b)];
    var e := MadeIsListed(events, a, op, b);
    FiresOnTime(made, e, more, now, script);
  }

  lemma DoJustOne(ts: Timers, op: Op)
    ensures DoAll(ts, [op]) == Do(ts, op)
  {
    assert [op][1..] == [] && DoAll(Do(ts, op), []) == Do(ts, op);
  }

  lemma MadeIsListed(events: seq<Event>, a: seq<Op>, op: Op, b: seq<Op>) returns (e: Entry)
    requires op.NewTimer? && op.clock + op.interval < TIME_RANGE && Spares(op.ref, b)
    ensures e == Entry(DoAll(History(events).timers, a).next, op.clock, op.interval, op.clock + op.interval, op.forever, op.ref)
    ensures e in History(events + [Handler(a + [op] + b)]).timers.list
  {
    var ts := History(events).timers;
    var made := events + [Handler(a + [op] + b)];
    assert made[..|made| - 1] == events;
    var mid := DoAll(ts, a);
    e := Entry(mid.next, op.clock, op.interval, op.clock + op.interval, op.forever, op.ref);
    hide DoAll, Do;
    DoAllConcat(ts, a + [op], b);
    DoAllConcat(ts, a, [op]);
    DoJustOne(mid, op);
    NewIsListed(mid, op.clock, op.interval, op.forever, op.ref);
    DoAllSpares(Do(mid, op), b, e);
  }

  /** A repeating timer that fired at `now` fires again in the first pass at or after `now + interval`. */
  lemma NextFiring(events: seq<Event>, e: Entry, now: nat, script: seq<seq<Op>>, more: seq<Event>, now': nat, script': seq<seq<Op>>)
    requires e in History(events).timers.list && e.expire <= now && AllSpare(e.ref, script)
    requires e.forever && 1 <= e.interval && now + e.interval < TIME_RANGE
    requires !HeadDue(Run(History(events).timers, now, script).timers, now)
    requires forall i :: 0 <= i < |more| ==> Quiet(e.ref, now + e.interval, more[i])
    requires var past := events + [Pass(now, script)];
             AllSpare(e.ref, script') && !HeadDue(Run(History(past + more).timers, now', script').timers, now')
    ensures e in Run(History(events).timers, now, script).fired
    ensures var past := events + [Pass(now, script)];
            e.(expire := now + e.interval) in Run(History(past + more).timers, now', script').fired <==> now + e.interval <= now'
  {
    var past := events + [Pass(now, script)];
    assert past[..|past| - 1] == events;
    HistoryKeepsOrder(events);
    assert History(past).timers == Run(History(events).timers, now, script).timers;
    hide WellFormed, Run, History;
    Now(History(events).timers, now, script, e);
    Rewound(History(events).timers, now, script, e);
    FiresOnTime(past, e.(expire := now + e.interval), more, now', script');
  }
}
