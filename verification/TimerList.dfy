/**
 The timer list on the heap: doubly linked nodes, updated in place.
 */
module TimerLists {
  import opened TimerSpec
  import TimerRuns

  class Timer {
    const interval: nat
    var expire: nat
    const forever: bool
    const ref: int
    var prev: Timer?
    var next: Timer?
    ghost const id: nat
    ghost const born: nat

    constructor (clock: nat, interval: nat, forever: bool, ref: int, ghost id: nat)
      ensures prev == null && next == null
      ensures View() == Entry(id, clock, interval, Later(clock, interval), forever, ref)
    {
      this.interval, this.forever, this.ref := interval, forever, ref;
      expire := (clock + interval) % TIME_RANGE;
      prev, next := null, null;
      this.id, born := id, clock;
    }

    ghost function View(): Entry
      reads this`expire
    {
      Entry(id, born, interval, expire, forever, ref)
    }
  }

  /** Neighbours point at each other, the ends point nowhere, and no node occurs twice. */
  ghost predicate Linked(nodes: seq<Timer>)
    reads nodes
  {
    Distinct(nodes) && forall i :: 0 <= i < |nodes| ==> LinkedAt(nodes, i)
  }

  ghost predicate LinkedAt(nodes: seq<Timer>, i: nat)
    requires i < |nodes|
    reads nodes
  {
    && nodes[i].prev == (if i == 0 then null else nodes[i - 1])
    && nodes[i].next == (if i == |nodes| - 1 then null else nodes[i + 1])
  }

  ghost predicate Distinct(nodes: seq<Timer>) {
    forall i, j :: 0 <= i < j < |nodes| ==> nodes[i] != nodes[j]
  }

  lemma DistinctInsert(nodes: seq<Timer>, n: Timer, k: nat)
    requires Distinct(nodes) && n !in nodes && k <= |nodes|
    ensures Distinct(nodes[..k] + [n] + nodes[k..])
  {
  }

  ghost function Views(nodes: seq<Timer>): (list: seq<Entry>)
    reads nodes
    ensures |list| == |nodes|
    ensures forall i :: 0 <= i < |nodes| ==> list[i] == nodes[i].View()
  {
    if nodes == [] then [] else [nodes[0].View()] + Views(nodes[1..])
  }

  class TimerList {
    var head: Timer?
    ghost var nodes: seq<Timer>
    ghost var nextId: nat

    ghost predicate Valid()
      reads this, nodes
    {
      && head == (if nodes == [] then null else nodes[0])
      && Linked(nodes)
    }

    ghost function List(): (list: seq<Entry>)
      reads this, nodes
      ensures |list| == |nodes|
    {
      Views(nodes)
    }

    constructor ()
      ensures Valid() && nodes == [] && nextId == 0
    {
      head := null;
      nodes, nextId := [], 0;
    }

    /** Links `n` in front of `node`. */
    method LinkBefore(n: Timer, node: Timer, ghost k: nat)
      requires Valid() && n !in nodes && k < |nodes| && node == nodes[k]
      modifies this`head, this`nodes, nodes`prev, nodes`next, n`prev, n`next
      ensures Valid() && nodes == old(nodes)[..k] + [n] + old(nodes)[k..]
    {
      ghost var was := nodes;
      assert LinkedAt(nodes, k) && (k > 0 ==> LinkedAt(nodes, k - 1));
      n.next := node;
      n.prev := node.prev;
      if node.prev != null {
        node.prev.next := n;
      }
      node.prev := n;
      if node == head {
        head := n;
      }
      DistinctInsert(nodes, n, k);
      nodes := nodes[..k] + [n] + nodes[k..];
      forall i | 0 <= i < |nodes| ensures LinkedAt(nodes, i) {
        if i != k {
          var j := if i < k then i else i - 1;
          assert nodes[i] == was[j] && old(LinkedAt(nodes, j));
        }
      }
    }

    /** Links `n` behind the last node. */
    method LinkAfter(n: Timer, node: Timer)
      requires Valid() && n !in nodes && nodes != [] && node == nodes[|nodes| - 1]
      modifies this`nodes, nodes`next, n`prev, n`next
      ensures Valid() && nodes == old(nodes) + [n]
    {
      ghost var was := nodes;
      n.prev := node;
      n.next := null;
      node.next := n;
      nodes := nodes + [n];
      forall i | 0 <= i < |nodes| ensures LinkedAt(nodes, i) {
        if i < |was| {
          assert nodes[i] == was[i] && old(LinkedAt(nodes, i));
        }
      }
    }

    /** The place the search in `add` stops at: in front of `node`, or behind it when it is the last. */
    method FindPlace(time: nat) returns (node: Timer, front: bool, ghost k: nat)
      requires Valid() && nodes != []
      ensures k <= |nodes| && forall i :: 0 <= i < k ==> List()[i].expire <= time
      ensures front ==> k < |nodes| && node == nodes[k] && time < List()[k].expire
      ensures !front ==> k == |nodes| && node == nodes[k - 1]
    {
      hide Linked;
      node, k := head, 0;
      while true
        invariant 0 <= k < |nodes| && node == nodes[k]
        invariant forall i :: 0 <= i < k ==> List()[i].expire <= time
        decreases |nodes| - k
      {
        LinksOf(nodes, k);
        if time < node.expire {
          return node, true, k;
        } else if node.next == null {
          return node, false, k + 1;
        } else {
          node := node.next;
          k := k + 1;
        }
      }
    }

    /** The position is behind every node that expires no later; the links of `n` are overwritten unread. */
    method Add(n: Timer)
      requires Valid() && n !in nodes
      modifies this`head, this`nodes, nodes`prev, nodes`next, n`prev, n`next
      ensures Valid() && List() == Insert(old(List()), n.View())
      ensures forall t :: t in nodes <==> t in old(nodes) || t == n
    {
      hide Linked, Place, Views;
      if head == null {
        Single(n);
        return;
      }
      var node, front;
      ghost var k;
      node, front, k := FindPlace(n.expire);
      InsertedAt(List(), n.View(), k);
      if front {
        LinkBefore(n, node, k);
      } else {
        LinkAfter(n, node);
      }
      ghost var list := old(List())[..k] + [n.View()] + old(List())[k..];
      forall i | 0 <= i < |nodes| ensures nodes[i].View() == list[i] {
        assert nodes[i] == if i < k then old(nodes)[i] else if i == k then n else old(nodes)[i - 1];
      }
      ViewsAre(nodes, list);
    }

    method Single(n: Timer)
      requires Valid() && nodes == []
      modifies this`head, this`nodes, n`prev, n`next
      ensures Valid() && nodes == [n]
    {
      head := n;
      n.prev, n.next := null, null;
      nodes := [n];
    }

    /** Unlinks a listed node; its own links are left as they were. */
    method RemoveByNode(node: Timer, ghost k: nat)
      requires Valid() && k < |nodes| && node == nodes[k]
      modifies this`head, this`nodes, nodes`prev, nodes`next
      ensures Valid() && nodes == old(nodes)[..k] + old(nodes)[k + 1..]
      ensures node.prev == old(node.prev) && node.next == old(node.next)
    {
      ghost var was := nodes;
      assert LinkedAt(nodes, k) && (k > 0 ==> LinkedAt(nodes, k - 1)) && (k + 1 < |nodes| ==> LinkedAt(nodes, k + 1));
      if head == node {
        head := head.next;
        if head != null {
          head.prev := null;
        }
      } else {
        node.prev.next := node.next;
        if node.next != null {
          node.next.prev := node.prev;
        }
      }
      nodes := nodes[..k] + nodes[k + 1..];
      forall i | 0 <= i < |nodes| ensures LinkedAt(nodes, i) {
        var j := if i < k then i else i + 1;
        assert nodes[i] == was[j] && old(LinkedAt(nodes, j));
      }
    }

    method Remove(node: Timer, ghost k: nat)
      requires Valid() && k < |nodes| && node == nodes[k]
      modifies this`head, this`nodes, nodes`prev, nodes`next
      ensures Valid() && List() == RemoveAt(old(List()), k)
      ensures node !in nodes && forall t :: t in nodes ==> t in old(nodes)
    {
      assert node !in nodes[..k] + nodes[k + 1..];
      hide Linked, Views;
      RemoveByNode(node, k);
      ghost var list := RemoveAt(old(List()), k);
      forall i | 0 <= i < |nodes| ensures nodes[i].View() == list[i] {
        assert nodes[i] == if i < k then old(nodes)[i] else old(nodes)[i + 1];
      }
      ViewsAre(nodes, list);
    }

    /** The first node with that reference, if any. */
    method Find(ref: int) returns (node: Timer?, ghost k: nat)
      requires Valid()
      ensures node == if IndexOf(List(), ref) < |nodes| then nodes[IndexOf(List(), ref)] else null
      ensures k == IndexOf(List(), ref)
    {
      hide Linked, Views;
      node, k := head, 0;
      while node != null && node.ref != ref
        invariant 0 <= k <= |nodes| && node == if k < |nodes| then nodes[k] else null
        invariant forall i :: 0 <= i < k ==> List()[i].ref != ref
        decreases |nodes| - k
      {
        LinksOf(nodes, k);
        node := node.next;
        k := k + 1;
      }
      IndexOfIs(List(), ref, k);
    }

    method MinInterval(now: nat) returns (r: int)
      requires Valid()
      ensures r == TimerRuns.MinInterval(List(), now)
    {
      r := if head == null then -1 else if head.expire > now then head.expire - now else -1;
    }

    ghost function State(): Timers
      reads this, nodes
    {
      Timers(List(), nextId)
    }

    /** A new timer, expiring its interval after the clock. */
    method AddNew(clock: nat, interval: nat, forever: bool, ref: int)
      requires Valid()
      modifies this, nodes`prev, nodes`next
      ensures Valid()
      ensures State() == Timers(Insert(old(List()), Entry(old(nextId), clock, interval, Later(clock, interval), forever, ref)), old(nextId) + 1)
      ensures forall i :: 0 <= i < |nodes| ==> nodes[i] in old(nodes) || fresh(nodes[i])
    {
      hide Linked, Views, Insert;
      var n := new Timer(clock, interval, forever, ref, nextId);
      Add(n);
      nextId := nextId + 1;
    }

    /** One call a Lua callback can make: `newtimer` or `removetimer`. */
    method Perform(op: Op)
      requires Valid()
      modifies this, nodes`prev, nodes`next
      ensures Valid() && State() == Do(old(State()), op)
      ensures forall i :: 0 <= i < |nodes| ==> nodes[i] in old(nodes) || fresh(nodes[i])
    {
      hide Linked, Views, Insert;
      match op
      case NewTimer(clock, interval, forever, ref) =>
        AddNew(clock, interval, forever, ref);
      case RemoveTimer(ref) =>
        var node;
        ghost var k;
        node, k := Find(ref);
        if node != null {
          Remove(node, k);
        }
    }

    /** Everything one callback does. */
    method Callback(ops: seq<Op>)
      requires Valid()
      modifies this, nodes`prev, nodes`next
      ensures Valid() && State() == DoAll(old(State()), ops)
      ensures forall i :: 0 <= i < |nodes| ==> nodes[i] in old(nodes) || fresh(nodes[i])
    {
      hide Linked, Views, Do;
      var i := 0;
      while i < |ops|
        invariant 0 <= i <= |ops|
        invariant Valid() && DoAll(State(), ops[i..]) == DoAll(old(State()), ops)
        invariant forall i :: 0 <= i < |nodes| ==> nodes[i] in old(nodes) || fresh(nodes[i])
      {
        assert ops[i..][1..] == ops[i + 1..];
        Perform(ops[i]);
        i := i + 1;
      }
    }

    method DetachHead() returns (node: Timer)
      requires Valid() && head != null
      modifies this`head, this`nodes, nodes`prev, nodes`next
      ensures Valid() && State() == old(State()).(list := old(List())[1..])
      ensures node in old(nodes) && node !in nodes && node.View() == old(List())[0]
      ensures forall i :: 0 <= i < |nodes| ==> nodes[i] in old(nodes)
    {
      hide Linked, Views;
      node := head;
      Remove(node, 0);
      assert RemoveAt(old(List()), 0) == old(List())[1..];
    }

    method ListAgain(node: Timer, now: nat)
      requires Valid() && node !in nodes
      modifies this`head, this`nodes, nodes`prev, nodes`next, node
      ensures Valid()
      ensures State() == old(State()).(list := Insert(old(List()), old(node.View()).(expire := Later(now, node.interval))))
      ensures forall i :: 0 <= i < |nodes| ==> nodes[i] in old(nodes) || nodes[i] == node
    {
      hide Linked, Views, Insert;
      node.expire := (now + node.interval) % TIME_RANGE;
      Add(node);
    }

    /** Calls back on a detached node, then lists it again if it repeats. */
    method CallDetached(node: Timer, now: nat, ops: seq<Op>)
      requires Valid() && node !in nodes
      modifies this, nodes`prev, nodes`next, node
      ensures Valid()
      ensures var after := DoAll(old(State()), ops);
              State() == if node.forever
                         then after.(list := Insert(after.list, old(node.View()).(expire := Later(now, node.interval))))
                         else after
      ensures forall i :: 0 <= i < |nodes| ==> nodes[i] in old(nodes) || nodes[i] == node || fresh(nodes[i])
    {
      hide Linked, Views, DoAll, Insert, Valid;
      Callback(ops);
      if node.forever {
        ListAgain(node, now);
      }
    }

    /** The body of the run loop: detach the head, call back, list a repeating timer again. */
    method FireHead(now: nat, ops: seq<Op>)
      requires Valid() && head != null
      modifies this, nodes
      ensures Valid() && State() == Fire(old(State()), now, ops)
      ensures forall i :: 0 <= i < |nodes| ==> nodes[i] in old(nodes) || fresh(nodes[i])
    {
      HeadIsFirst();
      hide Linked, Views, DoAll, Insert, Valid;
      var node := DetachHead();
      CallDetached(node, now, ops);
    }

    lemma HeadIsFirst()
      requires Valid()
      ensures if head == null then List() == [] else List() != [] && List()[0] == head.View()
    {
    }

    /** The run loop, followed for as many firings as the script has callbacks. */
    method Run(now: nat, script: seq<seq<Op>>) returns (ghost fired: seq<Entry>)
      requires Valid()
      modifies this, nodes
      ensures Valid()
      ensures Outcome(State(), fired) == TimerSpec.Run(old(State()), now, script)
      ensures forall i :: 0 <= i < |nodes| ==> nodes[i] in old(nodes) || fresh(nodes[i])
    {
      hide Linked, Views, Valid, Fire, TimerSpec.Run;
      fired := [];
      var i := 0;
      HeadIsFirst();
      while head != null && head.expire <= now && i < |script|
        invariant 0 <= i <= |script| && Valid()
        invariant if head == null then List() == [] else List() != [] && List()[0] == head.View()
        invariant forall i :: 0 <= i < |nodes| ==> nodes[i] in old(nodes) || fresh(nodes[i])
        invariant var o := TimerSpec.Run(State(), now, script[i..]);
                  Outcome(o.timers, fired + o.fired) == TimerSpec.Run(old(State()), now, script)
        decreases |script| - i
      {
        assert script[i..][1..] == script[i + 1..];
        RunUnfolds(State(), now, script[i..]);
        fired := fired + [head.View()];
        FireHead(now, script[i]);
        HeadIsFirst();
        i := i + 1;
      }
      RunUnfolds(State(), now, script[i..]);
    }
  }

  /**
   Any history of the worker on the heap: however handlers, callbacks and passes follow
   each other, the nodes form one properly linked list in order of expiry, and it is the
   list the history describes.
   */
  method Live(events: seq<TimerRuns.Event>) returns (list: TimerList, ghost log: seq<TimerRuns.Firing>)
    ensures list.Valid() && Sorted(list.List())
    ensures TimerRuns.World(list.State(), log) == TimerRuns.History(events)
  {
    list := new TimerList();
    log := [];
    hide TimerList.Valid, DoAll, Run;
    var i := 0;
    while i < |events|
      invariant 0 <= i <= |events| && fresh(list) && list.Valid()
      invariant forall j :: 0 <= j < |list.nodes| ==> fresh(list.nodes[j])
      invariant TimerRuns.World(list.State(), log) == TimerRuns.History(events[..i])
    {
      assert events[..i + 1][..i] == events[..i];
      match events[i] {
        case Handler(ops) =>
          list.Callback(ops);
        case Pass(now, script) =>
          ghost var fired := list.Run(now, script);
          log := log + TimerRuns.Stamp(fired, now);
      }
      i := i + 1;
    }
    assert events[..i] == events;
    TimerRuns.HistoryKeepsOrder(events);
  }

  lemma RunUnfolds(ts: Timers, now: nat, script: seq<seq<Op>>)
    ensures TimerSpec.Run(ts, now, script) ==
            if script == [] || !HeadDue(ts, now) then Outcome(ts, [])
            else var o := TimerSpec.Run(Fire(ts, now, script[0]), now, script[1..]);
                 Outcome(o.timers, [ts.list[0]] + o.fired)
  {
  }

  lemma ViewsAre(nodes: seq<Timer>, list: seq<Entry>)
    requires |list| == |nodes| && forall i :: 0 <= i < |nodes| ==> nodes[i].View() == list[i]
    ensures Views(nodes) == list
  {
  }

  lemma InsertedAt(list: seq<Entry>, e: Entry, k: nat)
    requires k <= |list|
    requires forall i :: 0 <= i < k ==> list[i].expire <= e.expire
    requires k < |list| ==> e.expire < list[k].expire
    ensures Insert(list, e) == list[..k] + [e] + list[k..]
  {
    PlaceIs(list, e.expire, k);
  }

  lemma LinksOf(nodes: seq<Timer>, k: nat)
    requires Linked(nodes) && k < |nodes|
    ensures nodes[k].next == if k == |nodes| - 1 then null else nodes[k + 1]
    ensures nodes[k].prev == if k == 0 then null else nodes[k - 1]
  {
    assert LinkedAt(nodes, k);
  }
}
