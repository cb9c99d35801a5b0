/**
 What one pass of the timer loop does, and what holds over the life of a timer.
 */
module TimerRuns {
  import opened TimerSpec

  // ----- well-formed lists

  ghost predicate UniqueIds(list: seq<Entry>) {
    forall i, j :: 0 <= i < j < |list| ==> list[i].id != list[j].id
  }

  function Ids(list: seq<Entry>): set<nat> {
    set i | 0 <= i < |list| :: list[i].id
  }

  ghost predicate WellFormed(ts: Timers) {
    && Sorted(ts.list) && UniqueIds(ts.list)
    && forall id <- Ids(ts.list) :: id < ts.next
  }

  lemma IdsSplit(a: seq<Entry>, b: seq<Entry>)
    ensures Ids(a + b) == Ids(a) + Ids(b)
  {
    forall id | id in Ids(a) + Ids(b) ensures id in Ids(a + b) {
      if id in Ids(a) {
        var i :| 0 <= i < |a| && a[i].id == id;
        assert (a + b)[i].id == id;
      } else {
        var i :| 0 <= i < |b| && b[i].id == id;
        assert (a + b)[|a| + i].id == id;
      }
    }
  }

  lemma UniqueSplit(a: seq<Entry>, b: seq<Entry>)
    ensures UniqueIds(a + b) <==> UniqueIds(a) && UniqueIds(b) && Ids(a) !! Ids(b)
  {
    if UniqueIds(a + b) {
      forall i, j | 0 <= i < j < |a| ensures a[i].id != a[j].id {
        assert (a + b)[i].id != (a + b)[j].id;
      }
      forall i, j | 0 <= i < j < |b| ensures b[i].id != b[j].id {
        assert (a + b)[|a| + i].id != (a + b)[|a| + j].id;
      }
      forall i, j | 0 <= i < |a| && 0 <= j < |b| ensures a[i].id != b[j].id {
        assert (a + b)[i].id != (a + b)[|a| + j].id;
      }
    }
    if UniqueIds(a) && UniqueIds(b) && Ids(a) !! Ids(b) {
      forall i, j | 0 <= i < j < |a + b| ensures (a + b)[i].id != (a + b)[j].id {
        if i < |a| <= j {
          assert a[i].id in Ids(a) && b[j - |a|].id in Ids(b);
        }
      }
    }
  }

  lemma IdsOfOne(e: Entry)
    ensures Ids([e]) == {e.id} && UniqueIds([e])
  {
    assert [e][0].id in Ids([e]);
  }

  /** Putting an entry between two halves of a list. */
  lemma BetweenHalves(a: seq<Entry>, e: Entry, b: seq<Entry>)
    requires UniqueIds(a + b) && e.id !in Ids(a + b)
    ensures UniqueIds(a + [e] + b) && Ids(a + [e] + b) == Ids(a + b) + {e.id}
  {
    hide UniqueIds, Ids;
    UniqueSplit(a, b);
    IdsSplit(a, b);
    IdsOfOne(e);
    UniqueSplit(a, [e]);
    IdsSplit(a, [e]);
    UniqueSplit(a + [e], b);
    IdsSplit(a + [e], b);
  }

  lemma InsertFresh(list: seq<Entry>, e: Entry)
    requires UniqueIds(list) && e.id !in Ids(list)
    ensures UniqueIds(Insert(list, e)) && Ids(Insert(list, e)) == Ids(list) + {e.id}
  {
    hide UniqueIds, Ids;
    var k := Place(list, e.expire);
    assert list == list[..k] + list[k..];
    BetweenHalves(list[..k], e, list[k..]);
  }

  lemma RemoveKeeps(list: seq<Entry>, k: nat)
    requires UniqueIds(list) && k < |list|
    ensures UniqueIds(RemoveAt(list, k)) && Ids(RemoveAt(list, k)) == Ids(list) - {list[k].id}
  {
    hide UniqueIds, Ids;
    var a, e, b := list[..k], list[k], list[k + 1..];
    assert list == a + ([e] + b);
    UniqueSplit(a, [e] + b);
    IdsSplit(a, [e] + b);
    UniqueSplit([e], b);
    IdsSplit([e], b);
    IdsOfOne(e);
    UniqueSplit(a, b);
    IdsSplit(a, b);
  }

  /** An operation keeps the list in order and only ever lists new ids. */
  lemma DoKeeps(ts: Timers, op: Op)
    requires WellFormed(ts)
    ensures WellFormed(Do(ts, op)) && ts.next <= Do(ts, op).next
    ensures forall id <- Ids(Do(ts, op).list) :: id in Ids(ts.list) || id >= ts.next
  {
    hide UniqueIds, Ids;
    match op
    case NewTimer(_, _, _, _) =>
      InsertKeepsOrder(ts.list, Created(ts, op));
      InsertFresh(ts.list, Created(ts, op));
    case RemoveTimer(ref) =>
      var k := IndexOf(ts.list, ref);
      if k < |ts.list| {
        RemoveKeeps(ts.list, k);
      }
  }

  lemma {:induction false} DoAllKeeps(ts: Timers, ops: seq<Op>)
    requires WellFormed(ts)
    ensures WellFormed(DoAll(ts, ops)) && ts.next <= DoAll(ts, ops).next
    ensures forall id <- Ids(DoAll(ts, ops).list) :: id in Ids(ts.list) || id >= ts.next
    decreases |ops|
  {
    if ops != [] {
      hide WellFormed, Ids, Do;
      DoKeeps(ts, ops[0]);
      DoAllKeeps(Do(ts, ops[0]), ops[1..]);
    }
  }

  lemma Detach(ts: Timers)
    requires WellFormed(ts) && ts.list != []
    ensures WellFormed(ts.(list := ts.list[1..])) && ts.list[0].id !in Ids(ts.list[1..])
    ensures Ids(ts.list) == Ids(ts.list[1..]) + {ts.list[0].id}
  {
    var h, tail := ts.list[0], ts.list[1..];
    assert ts.list == [h] + tail;
    UniqueSplit([h], tail);
    IdsSplit([h], tail);
    IdsOfOne(h);
  }

  lemma FireKeeps(ts: Timers, now: nat, ops: seq<Op>)
    requires WellFormed(ts) && ts.list != []
    ensures WellFormed(Fire(ts, now, ops)) && ts.next <= Fire(ts, now, ops).next
    ensures forall id <- Ids(Fire(ts, now, ops).list) :: id in Ids(ts.list) || id >= ts.next
  {
    hide UniqueIds, Ids;
    Detach(ts);
    var h, rest := ts.list[0], ts.(list := ts.list[1..]);
    DoAllKeeps(rest, ops);
    var after := DoAll(rest, ops);
    if h.forever {
      var e := h.(expire := Later(now, h.interval));
      InsertKeepsOrder(after.list, e);
      InsertFresh(after.list, e);
    }
  }

  // ----- the due part of a list

  /** The leading entries that expire no later than `now`; in an ordered list, all of those. */
  function Due(list: seq<Entry>, now: nat): seq<Entry> {
    list[..Place(list, now)]
  }

  lemma DueOfInsert(list: seq<Entry>, e: Entry, now: nat)
    requires now < e.expire && Sorted(list)
    ensures Due(Insert(list, e), now) == Due(list, now)
  {
    var p := Place(list, now);
    InsertKeepsOrder(list, e);
    PlaceIs(Insert(list, e), now, p);
  }

  lemma TakeOfConcat<T>(a: seq<T>, b: seq<T>, n: nat)
    requires |a| <= n <= |a| + |b|
    ensures (a + b)[..n] == a + b[..n - |a|]
  {
  }

  lemma RemoveThenTake(list: seq<Entry>, k: nat, p: nat)
    requires k < p <= |list|
    ensures RemoveAt(list, k)[..p - 1] == RemoveAt(list[..p], k)
  {
    TakeOfConcat(list[..k], list[k + 1..], p - 1);
    assert list[k + 1..][..p - 1 - k] == list[k + 1..p] == list[..p][k + 1..];
    assert list[..p][..k] == list[..k];
  }

  lemma DueOfRemove(list: seq<Entry>, k: nat, now: nat)
    requires k < |list| && Sorted(list)
    ensures list[k].expire <= now <==> k < |Due(list, now)|
    ensures Due(RemoveAt(list, k), now) ==
            if k < |Due(list, now)| then RemoveAt(Due(list, now), k) else Due(list, now)
  {
    hide Place;
    var p, r := Place(list, now), RemoveAt(list, k);
    if p <= k {
      assert list[p].expire <= list[k].expire;
      PlaceIs(r, now, p);
      assert r[..p] == list[..p];
    } else {
      PlaceIs(r, now, p - 1);
      RemoveThenTake(list, k, p);
    }
  }

  lemma {:induction false} WithoutNone(list: seq<Entry>, ids: set<nat>)
    requires Ids(list) !! ids
    ensures Without(list, ids) == list
  {
    if list != [] {
      assert list[0].id in Ids(list);
      assert list == [list[0]] + list[1..];
      IdsSplit([list[0]], list[1..]);
      WithoutNone(list[1..], ids);
    }
  }

  lemma {:induction false} WithoutAppend(a: seq<Entry>, b: seq<Entry>, ids: set<nat>)
    ensures Without(a + b, ids) == Without(a, ids) + Without(b, ids)
  {
    if a == [] {
      assert a + b == b;
    } else {
      assert (a + b)[1..] == a[1..] + b;
      WithoutAppend(a[1..], b, ids);
    }
  }

  lemma {:induction false} WithoutTwice(list: seq<Entry>, x: set<nat>, y: set<nat>)
    ensures Without(Without(list, x), y) == Without(list, x + y)
  {
    if list != [] {
      WithoutTwice(list[1..], x, y);
      var one := if list[0].id in x then [] else [list[0]];
      WithoutAppend(one, Without(list[1..], x), y);
    }
  }

  lemma WithoutItself(e: Entry)
    ensures Without([e], {e.id}) == []
  {
    assert [e][1..] == [];
  }

  lemma WithoutOne(list: seq<Entry>, k: nat)
    requires UniqueIds(list) && k < |list|
    ensures Without(list, {list[k].id}) == RemoveAt(list, k)
  {
    hide UniqueIds, Ids, Without;
    var a, e, b := list[..k], list[k], list[k + 1..];
    assert list == a + ([e] + b);
    UniqueSplit(a, [e] + b);
    IdsSplit(a, [e] + b);
    UniqueSplit([e], b);
    IdsSplit([e], b);
    IdsOfOne(e);
    WithoutAppend(a, [e] + b, {e.id});
    WithoutAppend([e], b, {e.id});
    WithoutNone(a, {e.id});
    WithoutNone(b, {e.id});
    WithoutItself(e);
    assert a + ([] + b) == RemoveAt(list, k);
  }

  lemma {:induction false} WithoutIsPart(list: seq<Entry>, ids: set<nat>)
    ensures |Without(list, ids)| <= |list| && Ids(Without(list, ids)) <= Ids(list)
    ensures forall e :: e in Without(list, ids) ==> e in list
  {
    if list != [] {
      WithoutIsPart(list[1..], ids);
      assert list == [list[0]] + list[1..];
      IdsSplit([list[0]], list[1..]);
      IdsSplit(if list[0].id in ids then [] else [list[0]], Without(list[1..], ids));
    }
  }

  // ----- one pass of the loop

  /** A timer made by a callback expires after the time of the pass. */
  predicate Punctual(now: nat, op: Op) {
    op.NewTimer? ==> now < Later(op.clock, op.interval)
  }

  predicate AllPunctual(now: nat, ops: seq<Op>) {
    forall i :: 0 <= i < |ops| ==> Punctual(now, ops[i])
  }

  /** A repeating timer is listed again for later: its interval is at least 1 and nothing overflows. */
  predicate Rearms(now: nat, e: Entry) {
    e.forever ==> now < Later(now, e.interval)
  }

  lemma RearmsMeans(now: nat, e: Entry)
    requires now < TIME_RANGE && e.interval < TIME_RANGE && e.forever
    ensures Rearms(now, e) <==> 1 <= e.interval && now + e.interval < TIME_RANGE
  {
    if now + e.interval < TIME_RANGE {
    } else {
      assert (now + e.interval) % TIME_RANGE == now + e.interval - TIME_RANGE;
    }
  }

  lemma DoDue(ts: Timers, now: nat, op: Op)
    requires WellFormed(ts) && Punctual(now, op)
    ensures Due(Do(ts, op).list, now) == Without(Due(ts.list, now), Cut(ts, now, op))
    ensures Cut(ts, now, op) <= Ids(Due(ts.list, now))
  {
    hide Place, Ids, UniqueIds, Without, Insert;
    var due := Due(ts.list, now);
    match op
    case NewTimer(_, _, _, _) =>
      DueOfInsert(ts.list, Created(ts, op), now);
      WithoutNone(due, {});
    case RemoveTimer(ref) =>
      var k := IndexOf(ts.list, ref);
      WithoutNone(due, {});
      if k < |ts.list| {
        DueOfRemove(ts.list, k, now);
        if k < |due| {
          DueIsUnique(ts, now);
          WithoutOne(due, k);
          ListedHere(due, k);
        }
      }
  }

  lemma DueIsUnique(ts: Timers, now: nat)
    requires WellFormed(ts)
    ensures UniqueIds(Due(ts.list, now))
  {
  }

  lemma ListedHere(list: seq<Entry>, k: nat)
    requires k < |list|
    ensures list[k].id in Ids(list)
  {
  }

  lemma {:induction false} DoAllDue(ts: Timers, now: nat, ops: seq<Op>)
    requires WellFormed(ts) && AllPunctual(now, ops)
    ensures Due(DoAll(ts, ops).list, now) == Without(Due(ts.list, now), CutAll(ts, now, ops))
    ensures CutAll(ts, now, ops) <= Ids(Due(ts.list, now))
    decreases |ops|
  {
    hide WellFormed, Do, Cut, Ids, Due;
    var due := Due(ts.list, now);
    if ops == [] {
      WithoutNone(due, {});
    } else {
      var ts' := Do(ts, ops[0]);
      DoKeeps(ts, ops[0]);
      DoDue(ts, now, ops[0]);
      DoAllDue(ts', now, ops[1..]);
      WithoutTwice(due, Cut(ts, now, ops[0]), CutAll(ts', now, ops[1..]));
      WithoutIsPart(due, Cut(ts, now, ops[0]));
    }
  }

  lemma DueOfTail(list: seq<Entry>, now: nat)
    requires list != [] && list[0].expire <= now
    ensures Due(list, now) != [] && Due(list, now)[0] == list[0] && Due(list[1..], now) == Due(list, now)[1..]
  {
  }

  /** A firing uses up the first due timer, and its callback only takes due timers away. */
  lemma FireDue(ts: Timers, now: nat, ops: seq<Op>)
    requires WellFormed(ts) && HeadDue(ts, now) && AllPunctual(now, ops) && Rearms(now, ts.list[0])
    ensures var rest := ts.(list := ts.list[1..]);
            && Due(Fire(ts, now, ops).list, now) == Without(Due(ts.list, now)[1..], CutAll(rest, now, ops))
            && CutAll(rest, now, ops) <= Ids(Due(ts.list, now)[1..])
  {
    hide Ids, Due, CutAll, UniqueIds;
    var h, rest := ts.list[0], ts.(list := ts.list[1..]);
    Detach(ts);
    DueOfTail(ts.list, now);
    DoAllKeeps(rest, ops);
    DoAllDue(rest, now, ops);
    if h.forever {
      DueOfInsert(DoAll(rest, ops).list, h.(expire := Later(now, h.interval)), now);
    }
  }

  /**
   One pass fires exactly the timers that were due on entry, each once and in list order,
   except those an earlier callback of the pass removed, and leaves only timers that
   expire later. It takes no more firings than there were due timers, so it ends.
   */
  lemma {:induction false} RunIsExact(ts: Timers, now: nat, script: seq<seq<Op>>)
    requires WellFormed(ts) && |Due(ts.list, now)| <= |script|
    requires forall e :: e in Due(ts.list, now) ==> Rearms(now, e)
    requires forall i :: 0 <= i < |script| ==> AllPunctual(now, script[i])
    ensures var o := Run(ts, now, script);
            && o.fired == Without(Due(ts.list, now), CutInRun(ts, now, script))
            && CutInRun(ts, now, script) <= Ids(Due(ts.list, now))
            && WellFormed(o.timers)
            && (forall e :: e in o.timers.list ==> now < e.expire)
    decreases |script|
  {
    var due := Due(ts.list, now);
    if !HeadDue(ts, now) {
      hide Ids, Without;
      NothingDue(ts, now);
      WithoutNone(due, {});
    } else {
      hide Ids, Due, UniqueIds, WellFormed, Fire, CutAll, Rearms;
      DueOfTail(ts.list, now);
      var h, tail := ts.list[0], due[1..];
      var next := Fire(ts, now, script[0]);
      var c1 := CutAll(ts.(list := ts.list[1..]), now, script[0]);
      var c2 := CutInRun(next, now, script[1..]);
      FireKeeps(ts, now, script[0]);
      FireDue(ts, now, script[0]);
      WithoutIsPart(tail, c1);
      RunIsExact(next, now, script[1..]);
      WithoutTwice(tail, c1, c2);
      HeadIsNotInTail(ts, now);
      WithoutHead(due, c1 + c2);
    }
  }

  lemma NothingDue(ts: Timers, now: nat)
    requires WellFormed(ts) && !HeadDue(ts, now)
    ensures Due(ts.list, now) == [] && forall e :: e in ts.list ==> now < e.expire
  {
    forall i | 0 <= i < |ts.list| ensures now < ts.list[i].expire {
      assert ts.list[0].expire <= ts.list[i].expire;
    }
  }

  lemma HeadIsNotInTail(ts: Timers, now: nat)
    requires WellFormed(ts) && HeadDue(ts, now) && Due(ts.list, now) != []
    ensures var due := Due(ts.list, now);
            due[0].id !in Ids(due[1..]) && Ids(due[1..]) <= Ids(due)
  {
    var due := Due(ts.list, now);
    assert due == [due[0]] + due[1..];
    UniqueSplit([due[0]], due[1..]);
    IdsSplit([due[0]], due[1..]);
    IdsOfOne(due[0]);
  }

  lemma WithoutHead(list: seq<Entry>, ids: set<nat>)
    requires list != [] && list[0].id !in ids
    ensures Without(list, ids) == [list[0]] + Without(list[1..], ids)
  {
  }

  // ----- conservation: which timers are listed after a pass

  function Gone(ts: Timers, op: Op): set<nat> {
    if op.NewTimer? then {}
    else
      var k := IndexOf(ts.list, op.ref);
      if k < |ts.list| then {ts.list[k].id} else {}
  }

  function GoneAll(ts: Timers, ops: seq<Op>): set<nat>
    decreases |ops|
  {
    if ops == [] then {} else Gone(ts, ops[0]) + GoneAll(Do(ts, ops[0]), ops[1..])
  }

  /** The ids callbacks removed in a pass, and those of fired timers that do not repeat. */
  function GoneInRun(ts: Timers, now: nat, script: seq<seq<Op>>): set<nat>
    decreases |script|
  {
    if script == [] || !HeadDue(ts, now) then {}
    else
      GoneAll(ts.(list := ts.list[1..]), script[0])
      + (if ts.list[0].forever then {} else {ts.list[0].id})
      + GoneInRun(Fire(ts, now, script[0]), now, script[1..])
  }

  function Span(lo: nat, hi: nat): (s: set<nat>)
    ensures forall id :: id in s <==> lo <= id < hi
  {
    if hi <= lo then {} else Span(lo, hi - 1) + {hi - 1}
  }

  /** Ids given out between two states. */
  function Born(ts: Timers, ts': Timers): set<nat> {
    Span(ts.next, ts'.next)
  }

  /** From `ts` to `ts'` exactly the new timers came and exactly those in `gone` went. */
  ghost predicate Conserved(ts: Timers, ts': Timers, gone: set<nat>) {
    && ts.next <= ts'.next
    && Ids(ts'.list) == Ids(ts.list) + Born(ts, ts') - gone
    && (forall id <- gone :: id < ts'.next)
  }

  lemma ConservedTwice(a: Timers, b: Timers, c: Timers, g: set<nat>, h: set<nat>)
    requires Conserved(a, b, g) && Conserved(b, c, h)
    ensures Conserved(a, c, g + h)
  {
    assert Born(a, c) == Born(a, b) + Born(b, c);
  }

  lemma DoConserves(ts: Timers, op: Op)
    requires WellFormed(ts)
    ensures Conserved(ts, Do(ts, op), Gone(ts, op))
  {
    hide UniqueIds, Ids, Sorted;
    match op
    case NewTimer(_, _, _, _) =>
      InsertFresh(ts.list, Created(ts, op));
      assert Born(ts, Do(ts, op)) == {ts.next};
    case RemoveTimer(ref) =>
      var k := IndexOf(ts.list, ref);
      assert Born(ts, Do(ts, op)) == {};
      if k < |ts.list| {
        RemoveKeeps(ts.list, k);
        ListedHere(ts.list, k);
      }
  }

  lemma {:induction false} DoAllConserves(ts: Timers, ops: seq<Op>)
    requires WellFormed(ts)
    ensures Conserved(ts, DoAll(ts, ops), GoneAll(ts, ops))
    decreases |ops|
  {
    if ops == [] {
      assert Born(ts, ts) == {};
    } else {
      hide WellFormed, Do, Gone, Conserved;
      DoKeeps(ts, ops[0]);
      DoConserves(ts, ops[0]);
      DoAllConserves(Do(ts, ops[0]), ops[1..]);
      ConservedTwice(ts, Do(ts, ops[0]), DoAll(ts, ops), Gone(ts, ops[0]), GoneAll(Do(ts, ops[0]), ops[1..]));
    }
  }

  /** Callbacks can only remove what is listed or what they made. */
  lemma {:induction false} GoneWasThere(ts: Timers, ops: seq<Op>)
    requires WellFormed(ts)
    ensures forall id <- GoneAll(ts, ops) :: id in Ids(ts.list) || id >= ts.next
    decreases |ops|
  {
    if ops != [] {
      DoKeeps(ts, ops[0]);
      GoneWasThere(Do(ts, ops[0]), ops[1..]);
      var k := if ops[0].RemoveTimer? then IndexOf(ts.list, ops[0].ref) else |ts.list|;
      if k < |ts.list| {
        ListedHere(ts.list, k);
      }
    }
  }

  lemma FireConserves(ts: Timers, now: nat, ops: seq<Op>)
    requires WellFormed(ts) && ts.list != []
    ensures Conserved(ts, Fire(ts, now, ops),
                      GoneAll(ts.(list := ts.list[1..]), ops) + (if ts.list[0].forever then {} else {ts.list[0].id}))
  {
    hide UniqueIds, Ids, GoneAll, DoAll, Sorted;
    var h, rest := ts.list[0], ts.(list := ts.list[1..]);
    Detach(ts);
    DoAllKeeps(rest, ops);
    DoAllConserves(rest, ops);
    GoneWasThere(rest, ops);
    var after := DoAll(rest, ops);
    assert Born(ts, after) == Born(rest, after);
    if h.forever {
      InsertFresh(after.list, h.(expire := Later(now, h.interval)));
      assert Born(ts, Fire(ts, now, ops)) == Born(ts, after);
    }
  }

  /**
   After a pass exactly these timers are listed: those listed before and those made
   meanwhile, without the removed ones and the fired ones that do not repeat. In
   particular every repeating timer that fired and was not removed is listed again.
   */
  lemma {:induction false} RunConserves(ts: Timers, now: nat, script: seq<seq<Op>>)
    requires WellFormed(ts)
    ensures Conserved(ts, Run(ts, now, script).timers, GoneInRun(ts, now, script))
    decreases |script|
  {
    if script == [] || !HeadDue(ts, now) {
      assert Born(ts, ts) == {};
    } else {
      hide WellFormed, Conserved, Fire, GoneAll;
      var next := Fire(ts, now, script[0]);
      FireKeeps(ts, now, script[0]);
      FireConserves(ts, now, script[0]);
      RunConserves(next, now, script[1..]);
      ConservedTwice(ts, next, Run(next, now, script[1..]).timers,
                     GoneAll(ts.(list := ts.list[1..]), script[0]) + (if ts.list[0].forever then {} else {ts.list[0].id}),
                     GoneInRun(next, now, script[1..]));
    }
  }

  // ----- when the loop ends, without any help from callbacks

  /** `n` callbacks that touch no timer. */
  function Idle(n: nat): seq<seq<Op>> {
    seq(n, _ => [])
  }

  /** A due repeating timer that would be listed again as due. */
  predicate Stuck(now: nat, e: Entry) {
    e.expire <= now && !Rearms(now, e)
  }

  lemma InList(list: seq<Entry>, e: Entry, x: Entry)
    ensures e in Insert(list, x) <==> e in list || e == x
  {
    var k := Place(list, x.expire);
    assert list == list[..k] + list[k..];
  }

  lemma StuckIsDue(ts: Timers, now: nat, e: Entry)
    requires WellFormed(ts) && e in ts.list && Stuck(now, e)
    ensures HeadDue(ts, now)
  {
    var i :| 0 <= i < |ts.list| && ts.list[i] == e;
    assert ts.list[0].expire <= ts.list[i].expire;
  }

  /** No operation removes timers with that reference. */
  predicate Spares(ref: int, ops: seq<Op>) {
    RemoveTimer(ref) !in ops
  }

  predicate AllSpare(ref: int, script: seq<seq<Op>>) {
    forall i :: 0 <= i < |script| ==> Spares(ref, script[i])
  }

  lemma DoSpares(ts: Timers, op: Op, e: Entry)
    requires e in ts.list && op != RemoveTimer(e.ref)
    ensures e in Do(ts, op).list
  {
    hide Insert;
    match op
    case NewTimer(_, _, _, _) => InList(ts.list, e, Created(ts, op));
    case RemoveTimer(ref) =>
      var k, i :| k == IndexOf(ts.list, ref) && 0 <= i < |ts.list| && ts.list[i] == e;
      if k < |ts.list| {
        assert ts.list == ts.list[..k] + [ts.list[k]] + ts.list[k + 1..];
      }
  }

  lemma {:induction false} DoAllSpares(ts: Timers, ops: seq<Op>, e: Entry)
    requires e in ts.list && Spares(e.ref, ops)
    ensures e in DoAll(ts, ops).list
    decreases |ops|
  {
    if ops != [] {
      hide Do;
      DoSpares(ts, ops[0], e);
      DoAllSpares(Do(ts, ops[0]), ops[1..], e);
    }
  }

  /** Whatever a callback does, its repeating timer is listed again when it returns, one interval from now. */
  lemma NothingStopsIt(ts: Timers, now: nat, ops: seq<Op>)
    requires ts.list != [] && ts.list[0].forever
    ensures ts.list[0].(expire := (now + ts.list[0].interval) % TIME_RANGE) in Fire(ts, now, ops).list
  {
    hide Insert, DoAll;
    var again := ts.list[0].(expire := Later(now, ts.list[0].interval));
    InList(DoAll(ts.(list := ts.list[1..]), ops).list, again, again);
  }

  /** A firing leaves a stuck timer, if need be the same one listed again. */
  lemma StuckStays(ts: Timers, now: nat, ops: seq<Op>, e: Entry) returns (e': Entry)
    requires e in ts.list && Stuck(now, e) && Spares(e.ref, ops)
    ensures e' in Fire(ts, now, ops).list && Stuck(now, e') && e'.ref == e.ref
  {
    hide Insert, DoAll;
    var h, rest := ts.list[0], ts.list[1..];
    var again := h.(expire := Later(now, h.interval));
    assert ts.list == [h] + rest;
    if e == h {
      NothingStopsIt(ts, now, ops);
      e' := again;
    } else {
      e' := e;
      DoAllSpares(ts.(list := rest), ops, e);
      InList(DoAll(ts.(list := rest), ops).list, e, again);
    }
  }

  /** As long as no callback removes it, a stuck timer keeps the loop going: every script is used up. */
  lemma {:induction false} StuckForever(ts: Timers, now: nat, script: seq<seq<Op>>, e: Entry)
    requires WellFormed(ts) && e in ts.list && Stuck(now, e) && AllSpare(e.ref, script)
    ensures HeadDue(Run(ts, now, script).timers, now) && |Run(ts, now, script).fired| == |script|
    decreases |script|
  {
    StuckIsDue(ts, now, e);
    if script != [] {
      hide WellFormed, Fire, Stuck, Spares;
      FireKeeps(ts, now, script[0]);
      var e' := StuckStays(ts, now, script[0], e);
      StuckForever(Fire(ts, now, script[0]), now, script[1..], e');
    }
  }

  /** The loop comes to a timer that is not due if and only if every due repeating timer rearms for later. */
  lemma LoopEnds(ts: Timers, now: nat)
    requires WellFormed(ts)
    ensures (exists n: nat :: !HeadDue(Run(ts, now, Idle(n)).timers, now))
            <==> forall e :: e in ts.list ==> !Stuck(now, e)
  {
    if e :| e in ts.list && Stuck(now, e) {
      forall n: nat ensures HeadDue(Run(ts, now, Idle(n)).timers, now) {
        StuckForever(ts, now, Idle(n), e);
      }
    } else {
      var n := |Due(ts.list, now)|;
      forall e | e in Due(ts.list, now) ensures Rearms(now, e) {
        assert e in ts.list && e.expire <= now;
      }
      RunIsExact(ts, now, Idle(n));
    }
  }

  // ----- the life of a timer, over everything the worker does

  datatype Firing = Firing(e: Entry, now: nat)

  function Count(log: seq<Firing>, id: nat): nat {
    if log == [] then 0
    else Count(log[..|log| - 1], id) + (if log[|log| - 1].e.id == id then 1 else 0)
  }

  datatype Event = Handler(ops: seq<Op>) | Pass(now: nat, script: seq<seq<Op>>)
  datatype World = World(timers: Timers, log: seq<Firing>)

  function Stamp(fired: seq<Entry>, now: nat): seq<Firing> {
    seq(|fired|, i requires 0 <= i < |fired| => Firing(fired[i], now))
  }

  function History(events: seq<Event>): World {
    if events == [] then World(Timers([], 0), [])
    else
      var w := History(events[..|events| - 1]);
      match events[|events| - 1]
      case Handler(ops) => w.(timers := DoAll(w.timers, ops))
      case Pass(now, script) =>
        var o := Run(w.timers, now, script);
        World(o.timers, w.log + Stamp(o.fired, now))
  }

  lemma {:induction false} RunKeeps(ts: Timers, now: nat, script: seq<seq<Op>>)
    requires WellFormed(ts)
    ensures WellFormed(Run(ts, now, script).timers)
    decreases |script|
  {
    if script != [] && HeadDue(ts, now) {
      hide WellFormed, Fire;
      FireKeeps(ts, now, script[0]);
      RunKeeps(Fire(ts, now, script[0]), now, script[1..]);
    }
  }

  /** The list is in order after any history whatsoever, overflows and callbacks included. */
  lemma {:induction false} HistoryKeepsOrder(events: seq<Event>)
    ensures WellFormed(History(events).timers)
  {
    if events != [] {
      HistoryKeepsOrder(events[..|events| - 1]);
      hide WellFormed, Run, DoAll;
      var w := History(events[..|events| - 1]);
      match events[|events| - 1]
      case Handler(ops) => DoAllKeeps(w.timers, ops);
      case Pass(now, script) => RunKeeps(w.timers, now, script);
    }
  }

  /**
   An endless pass is reachable: after any history, a repeating timer of interval 0 keeps
   the next pass from ending, unless a callback removes it.
   */
  lemma EndlessPass(events: seq<Event>, clock: nat, ref: int, now: nat, script: seq<seq<Op>>)
    requires clock <= now && AllSpare(ref, script)
    ensures var w := History(events + [Handler([NewTimer(clock, 0, true, ref)])]);
            var o := Run(w.timers, now, script);
            HeadDue(o.timers, now) && |o.fired| == |script|
  {
    var op := NewTimer(clock, 0, true, ref);
    var all := events + [Handler([op])];
    assert all[..|all| - 1] == events && [op][1..] == [];
    var before := History(events).timers;
    assert History(all).timers == DoAll(Do(before, op), []);
    var e := Created(before, op);
    HistoryKeepsOrder(all);
    hide Insert, WellFormed, Run;
    InList(before.list, e, e);
    StuckForever(History(all).timers, now, script, e);
  }

  /** The `j`-th firing is not early: the `k`-th firing of a timer comes `k` intervals after its birth, or later. */
  predicate Timely(log: seq<Firing>, j: nat)
    requires j < |log|
  {
    var f, k := log[j], Count(log[..j + 1], log[j].e.id);
    f.e.expire <= f.now && f.e.born + k * f.e.interval <= f.now && (f.e.forever || k == 1)
  }

  /** What a listed timer carries over from the firings so far. */
  predicate Waits(log: seq<Firing>, limit: nat, e: Entry) {
    var k := Count(log, e.id);
    e.born + (k + 1) * e.interval <= e.expire && e.interval <= limit && (e.forever || k == 0)
  }

  ghost predicate LifeInv(w: World, limit: nat) {
    && WellFormed(w.timers)
    && (forall i :: 0 <= i < |w.timers.list| ==> Waits(w.log, limit, w.timers.list[i]))
    && (forall id: nat :: w.timers.next <= id ==> Count(w.log, id) == 0)
    && (forall j :: 0 <= j < |w.log| ==> Timely(w.log, j))
  }

  /** No addition of a time and an interval overflows. */
  predicate OpBounded(time: nat, limit: nat, op: Op) {
    op.NewTimer? ==> op.clock <= time && op.interval <= limit
  }

  predicate OpsBounded(time: nat, limit: nat, ops: seq<Op>) {
    forall i :: 0 <= i < |ops| ==> OpBounded(time, limit, ops[i])
  }

  predicate Bounded(time: nat, limit: nat, ev: Event) {
    match ev
    case Handler(ops) => OpsBounded(time, limit, ops)
    case Pass(now, script) =>
      now <= time && forall i :: 0 <= i < |script| ==> OpsBounded(time, limit, script[i])
  }

  lemma DoLife(w: World, time: nat, limit: nat, op: Op)
    requires LifeInv(w, limit) && OpBounded(time, limit, op) && time + limit < TIME_RANGE
    ensures LifeInv(w.(timers := Do(w.timers, op)), limit)
  {
    hide WellFormed, Count, Place, Timely;
    var ts := w.timers;
    DoKeeps(ts, op);
    match op
    case NewTimer(clock, interval, _, _) =>
      var e := Created(ts, op);
      assert e.expire == clock + interval;
      assert Waits(w.log, limit, e);
    case RemoveTimer(_) =>
  }

  lemma {:induction false} DoAllLife(w: World, time: nat, limit: nat, ops: seq<Op>)
    requires LifeInv(w, limit) && OpsBounded(time, limit, ops) && time + limit < TIME_RANGE
    ensures LifeInv(w.(timers := DoAll(w.timers, ops)), limit)
    decreases |ops|
  {
    if ops != [] {
      hide LifeInv, Do;
      DoLife(w, time, limit, ops[0]);
      DoAllLife(w.(timers := Do(w.timers, ops[0])), time, limit, ops[1..]);
    }
  }

  lemma CountAppend(log: seq<Firing>, f: Firing, id: nat)
    ensures Count(log + [f], id) == Count(log, id) + (if f.e.id == id then 1 else 0)
  {
    assert (log + [f])[..|log|] == log;
  }

  /** Detaching the head and logging it. */
  lemma DetachLife(w: World, limit: nat, now: nat)
    requires LifeInv(w, limit) && HeadDue(w.timers, now)
    ensures LifeInv(World(w.timers.(list := w.timers.list[1..]), w.log + [Firing(w.timers.list[0], now)]), limit)
  {
    hide Count, UniqueIds, Ids;
    var ts, h := w.timers, w.timers.list[0];
    var f := Firing(h, now);
    var log := w.log + [f];
    Detach(ts);
    assert Waits(w.log, limit, h);
    CountAppend(w.log, f, h.id);
    forall i | 0 <= i < |ts.list[1..]| ensures Waits(log, limit, ts.list[1..][i]) {
      ListedHere(ts.list[1..], i);
      CountAppend(w.log, f, ts.list[1..][i].id);
      assert Waits(w.log, limit, ts.list[i + 1]);
    }
    forall id: nat | ts.next <= id ensures Count(log, id) == 0 {
      CountAppend(w.log, f, id);
      assert h.id < ts.next;
    }
    forall j | 0 <= j < |log| ensures Timely(log, j) {
      if j < |w.log| {
        assert log[..j + 1] == w.log[..j + 1];
        assert Timely(w.log, j);
      } else {
        assert log[..j + 1] == log;
      }
    }
  }

  lemma FireLife(w: World, time: nat, limit: nat, now: nat, ops: seq<Op>)
    requires LifeInv(w, limit) && HeadDue(w.timers, now)
    requires OpsBounded(time, limit, ops) && now <= time && time + limit < TIME_RANGE
    ensures LifeInv(World(Fire(w.timers, now, ops), w.log + [Firing(w.timers.list[0], now)]), limit)
  {
    hide Count, UniqueIds, Ids, Place, WellFormed, Timely, DoAll;
    var ts, h := w.timers, w.timers.list[0];
    var f := Firing(h, now);
    var rest := World(ts.(list := ts.list[1..]), w.log + [f]);
    DetachLife(w, limit, now);
    DoAllLife(rest, time, limit, ops);
    FireKeeps(ts, now, ops);
    assert Waits(w.log, limit, h);
    CountAppend(w.log, f, h.id);
    if h.forever {
      var k := Count(w.log, h.id);
      assert (k + 2) * h.interval == (k + 1) * h.interval + h.interval;
      assert Later(now, h.interval) == now + h.interval;
      assert Waits(rest.log, limit, h.(expire := now + h.interval));
    }
  }

  lemma {:induction false} RunLife(w: World, time: nat, limit: nat, now: nat, script: seq<seq<Op>>)
    requires LifeInv(w, limit) && Bounded(time, limit, Pass(now, script)) && time + limit < TIME_RANGE
    ensures var o := Run(w.timers, now, script);
            LifeInv(World(o.timers, w.log + Stamp(o.fired, now)), limit)
    decreases |script|
  {
    hide LifeInv, Fire, OpsBounded;
    if script == [] || !HeadDue(w.timers, now) {
      assert w.log + Stamp([], now) == w.log;
    } else {
      var h := w.timers.list[0];
      FireLife(w, time, limit, now, script[0]);
      var w' := World(Fire(w.timers, now, script[0]), w.log + [Firing(h, now)]);
      RunLife(w', time, limit, now, script[1..]);
      var o := Run(w'.timers, now, script[1..]);
      assert w'.log + Stamp(o.fired, now) == w.log + Stamp([h] + o.fired, now);
    }
  }

  /**
   Over everything the worker ever does with timers, in whatever order the clock is read:
   no firing is early, the k-th firing of a timer comes at least k intervals after its
   birth, and a timer that does not repeat fires once.
   */
  lemma {:induction false} NeverEarly(events: seq<Event>, time: nat, limit: nat)
    requires time + limit < TIME_RANGE
    requires forall i :: 0 <= i < |events| ==> Bounded(time, limit, events[i])
    ensures LifeInv(History(events), limit)
    ensures forall j :: 0 <= j < |History(events).log| ==> Timely(History(events).log, j)
  {
    if events != [] {
      hide DoAll, Run, Stamp;
      var n := |events| - 1;
      NeverEarly(events[..n], time, limit);
      var w := History(events[..n]);
      assert Bounded(time, limit, events[n]);
      match events[n]
      case Handler(ops) => DoAllLife(w, time, limit, ops);
      case Pass(now, script) => RunLife(w, time, limit, now, script);
    }
  }

  // ----- how long the worker sleeps

  /** What `min_interval` tells the poll: -1 is "until an event comes". */
  function MinInterval(list: seq<Entry>, now: nat): int {
    if list == [] then -1
    else if list[0].expire > now then list[0].expire - now else -1
  }

  /** With nothing due it is the shortest wait of all timers; with something due it is the same -1 as for an empty list. */
  lemma MinIntervalMeans(ts: Timers, now: nat)
    requires WellFormed(ts)
    ensures var r := MinInterval(ts.list, now);
            && (r == -1 <==> ts.list == [] || exists e :: e in ts.list && e.expire <= now)
            && (r != -1 ==> (exists e :: e in ts.list && r == e.expire - now)
                            && forall e :: e in ts.list ==> r <= e.expire - now)
  {
    if ts.list != [] {
      assert ts.list[0] in ts.list;
      forall e | e in ts.list ensures ts.list[0].expire <= e.expire {
        var i :| 0 <= i < |ts.list| && ts.list[i] == e;
      }
    }
  }

  // ----- a callback and its own timer

  predicate Unreferenced(list: seq<Entry>, ref: int) {
    forall i :: 0 <= i < |list| ==> list[i].ref != ref
  }

  lemma {:induction false} DoAllConcat(ts: Timers, a: seq<Op>, b: seq<Op>)
    ensures DoAll(ts, a + b) == DoAll(DoAll(ts, a), b)
    decreases |a|
  {
    if a == [] {
      assert a + b == b;
    } else {
      assert (a + b)[1..] == a[1..] + b;
      DoAllConcat(Do(ts, a[0]), a[1..], b);
    }
  }

  /** Without a new timer of that reference there is none later on. */
  lemma {:induction false} StaysUnreferenced(ts: Timers, ops: seq<Op>, ref: int)
    requires Unreferenced(ts.list, ref) && forall i :: 0 <= i < |ops| && ops[i].NewTimer? ==> ops[i].ref != ref
    ensures Unreferenced(DoAll(ts, ops).list, ref)
    decreases |ops|
  {
    if ops != [] {
      assert Unreferenced(Do(ts, ops[0]).list, ref);
      StaysUnreferenced(Do(ts, ops[0]), ops[1..], ref);
    }
  }

  /**
   A firing timer is detached: a callback that removes its own reference, at whatever point,
   changes nothing, unless another timer had the same reference.
   */
  lemma CannotRemoveItself(ts: Timers, now: nat, a: seq<Op>, b: seq<Op>)
    requires ts.list != [] && Unreferenced(ts.list[1..], ts.list[0].ref)
    requires forall i :: 0 <= i < |a| && a[i].NewTimer? ==> a[i].ref != ts.list[0].ref
    ensures Fire(ts, now, a + [RemoveTimer(ts.list[0].ref)] + b) == Fire(ts, now, a + b)
  {
    hide Insert;
    var rest, op := ts.(list := ts.list[1..]), RemoveTimer(ts.list[0].ref);
    StaysUnreferenced(rest, a, op.ref);
    var mid := DoAll(rest, a);
    IndexOfIs(mid.list, op.ref, |mid.list|);
    assert [op][1..] == [] && DoAll(mid, [op]) == DoAll(mid, []) == mid;
    DoAllConcat(rest, a, b);
    DoAllConcat(rest, a, [op]);
    DoAllConcat(rest, a + [op], b);
  }
}
