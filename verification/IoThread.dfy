/**
 The table of connections: what each lifetime of a descriptor sends to the worker, and who
 owns every message on the way.

 Operations on the table are atomic. Bytes received, and results of accept, write and poll
 registration, are given as scripts. The queue is the FIFO the ring refines.
 */
module IoThreads {
  import opened MessageQueues
  import opened Frames
  import opened Sockets

  const MAX_SOCKET_NUMBER: int := 65536

  type Fd = fd: int | 0 <= fd < MAX_SOCKET_NUMBER

  datatype SocketKind = Server | Client | Connection

  /** A message as the I/O thread sees it: which allocation, for which descriptor, and what it carries. */
  datatype Item = Item(id: nat, fd: Fd, kind: Kind, data: seq<byte>)

  /** `partial` is the unfinished frame, `reading` the message allocated for it once its length is known. */
  datatype Entry = Entry(kind: SocketKind, reading: Option<nat>, partial: seq<byte>)

  /** A push to the worker's queue, and whether there was room. */
  datatype Attempt = Attempt(item: Item, ok: bool)

  // ----- lifetimes

  /** What happens to a descriptor: it is opened, a byte is received on it, it is closed. */
  datatype Happening = Born(fd: Fd, kind: SocketKind) | Got(fd: Fd, b: byte) | Died(fd: Fd)

  datatype Life = Life(kind: SocketKind, stream: seq<byte>, ended: bool)

  /** The lifetimes of a descriptor, one after the other, each with the bytes received in it. */
  function Lifetimes(history: seq<Happening>, fd: Fd): seq<Life> {
    if history == [] then []
    else
      var ls, h := Lifetimes(history[..|history| - 1], fd), history[|history| - 1];
      if h.fd != fd then ls else Grown(ls, h)
  }

  function Grown(ls: seq<Life>, h: Happening): seq<Life> {
    var n := |ls| - 1;
    match h
    case Born(_, kind) => ls + [Life(kind, [], false)]
    case Got(_, b) => if ls == [] then ls else ls[n := ls[n].(stream := ls[n].stream + [b])]
    case Died(_) => if ls == [] then ls else ls[n := ls[n].(ended := true)]
  }

  datatype Sent = Sent(kind: Kind, data: seq<byte>)

  function PackagesSent(fs: seq<seq<byte>>): seq<Sent> {
    seq(|fs|, i requires 0 <= i < |fs| => Sent(Package, fs[i]))
  }

  /**
   Exactly what one lifetime may send: establishment if it was accepted, the frames of its
   stream as packages, loss at the end.
   */
  function LifeTrace(max: nat, l: Life): seq<Sent> {
    (if l.kind.Connection? then [Sent(Establish, [])] else [])
    + PackagesSent(Parse(max, l.stream).frames)
    + (if l.ended then [Sent(Lost, [])] else [])
  }

  function Trace(max: nat, ls: seq<Life>): seq<Sent> {
    if ls == [] then [] else Trace(max, ls[..|ls| - 1]) + LifeTrace(max, ls[|ls| - 1])
  }

  function Projection(attempts: seq<Attempt>, fd: Fd): seq<Sent> {
    if attempts == [] then []
    else Projection(attempts[..|attempts| - 1], fd)
         + (var a := attempts[|attempts| - 1]; if a.item.fd == fd then [Sent(a.item.kind, a.item.data)] else [])
  }

  /** The attempts of a descriptor are those of its lifetimes; only the last can be open, and listening sockets are never read. */
  ghost predicate Lived(max: nat, history: seq<Happening>, attempts: seq<Attempt>, fd: Fd) {
    var ls := Lifetimes(history, fd);
    && Projection(attempts, fd) == Trace(max, ls)
    && (forall i :: 0 <= i < |ls| - 1 ==> ls[i].ended)
    && (forall i :: 0 <= i < |ls| ==> (ls[i].kind.Server? ==> ls[i].stream == []))
  }

  ghost predicate Alive(history: seq<Happening>, fd: Fd) {
    var ls := Lifetimes(history, fd); ls != [] && !ls[|ls| - 1].ended
  }

  /** The table entry holds what the stream of the open lifetime leaves unfinished. */
  ghost predicate Open(max: nat, l: Life, e: Entry) {
    && l.kind == e.kind && Parse(max, l.stream).rest == e.partial && !Parse(max, l.stream).bad
    && (e.reading.Some? <==> |e.partial| >= LENGTH_SIZE)
  }

  /** The last lifetime is open exactly while the table has an entry. */
  ghost predicate ShapedAt(max: nat, sockets: map<Fd, Entry>, history: seq<Happening>, attempts: seq<Attempt>, fd: Fd) {
    && Lived(max, history, attempts, fd)
    && (fd in sockets <==> Alive(history, fd))
    && (fd in sockets ==> var ls := Lifetimes(history, fd); Open(max, ls[|ls| - 1], sockets[fd]))
  }

  ghost predicate Shaped(max: nat, sockets: map<Fd, Entry>, history: seq<Happening>, attempts: seq<Attempt>) {
    forall fd: Fd :: ShapedAt(max, sockets, history, attempts, fd)
  }

  ghost predicate ShapedBut(max: nat, sockets: map<Fd, Entry>, history: seq<Happening>, attempts: seq<Attempt>, fd: Fd) {
    forall g: Fd :: g != fd ==> ShapedAt(max, sockets, history, attempts, g)
  }

  lemma LifetimesAppend(history: seq<Happening>, h: Happening, fd: Fd)
    ensures Lifetimes(history + [h], fd) ==
            if h.fd == fd then Grown(Lifetimes(history, fd), h) else Lifetimes(history, fd)
  {
    assert (history + [h])[..|history|] == history;
  }

  lemma TraceAppend(max: nat, ls: seq<Life>, l: Life)
    ensures Trace(max, ls + [l]) == Trace(max, ls) + LifeTrace(max, l)
  {
    assert (ls + [l])[..|ls|] == ls;
  }

  lemma ProjectionAppend(attempts: seq<Attempt>, a: Attempt, fd: Fd)
    ensures Projection(attempts + [a], fd) ==
            Projection(attempts, fd) + if a.item.fd == fd then [Sent(a.item.kind, a.item.data)] else []
  {
    assert (attempts + [a])[..|attempts|] == attempts;
  }

  /** What happens to one descriptor does not concern the others: ... */
  lemma OthersHistory(max: nat, sockets: map<Fd, Entry>, history: seq<Happening>, attempts: seq<Attempt>, h: Happening)
    requires ShapedBut(max, sockets, history, attempts, h.fd)
    ensures ShapedBut(max, sockets, history + [h], attempts, h.fd)
  {
    hide Lifetimes, Trace, Projection, Open;
    forall g: Fd | g != h.fd ensures ShapedAt(max, sockets, history + [h], attempts, g) {
      assert ShapedAt(max, sockets, history, attempts, g);
      LifetimesAppend(history, h, g);
    }
  }

  /** ... neither in what it sends ... */
  lemma OthersAttempt(max: nat, sockets: map<Fd, Entry>, history: seq<Happening>, attempts: seq<Attempt>, a: Attempt)
    requires ShapedBut(max, sockets, history, attempts, a.item.fd)
    ensures ShapedBut(max, sockets, history, attempts + [a], a.item.fd)
  {
    hide Lifetimes, Trace, Projection, Open;
    forall g: Fd | g != a.item.fd ensures ShapedAt(max, sockets, history, attempts + [a], g) {
      assert ShapedAt(max, sockets, history, attempts, g);
      ProjectionAppend(attempts, a, g);
    }
  }

  /** ... nor in its table entry. */
  lemma OthersSockets(max: nat, sockets: map<Fd, Entry>, history: seq<Happening>, attempts: seq<Attempt>, fd: Fd, sockets': map<Fd, Entry>)
    requires ShapedBut(max, sockets, history, attempts, fd) && sockets' - {fd} == sockets - {fd}
    ensures ShapedBut(max, sockets', history, attempts, fd)
  {
    hide Lived, Alive, Open;
    forall g: Fd | g != fd ensures ShapedAt(max, sockets', history, attempts, g) {
      assert ShapedAt(max, sockets, history, attempts, g);
      assert g in sockets' <==> g in sockets' - {fd};
      assert g in sockets <==> g in sockets - {fd};
      if g in sockets {
        assert sockets'[g] == (sockets' - {fd})[g] == (sockets - {fd})[g] == sockets[g];
      }
    }
  }

  lemma AllShaped(max: nat, sockets: map<Fd, Entry>, history: seq<Happening>, attempts: seq<Attempt>, fd: Fd)
    requires ShapedBut(max, sockets, history, attempts, fd) && ShapedAt(max, sockets, history, attempts, fd)
    ensures Shaped(max, sockets, history, attempts)
  {
    hide ShapedAt;
  }

  // ----- the five things that can happen

  /** A descriptor is opened: by the worker in silence, by `accept` with an establishment. */
  lemma BirthLives(max: nat, history: seq<Happening>, attempts: seq<Attempt>, fd: Fd, kind: SocketKind, a: Attempt)
    requires Lived(max, history, attempts, fd) && !Alive(history, fd)
    requires a.item.fd == fd && a.item.kind == Establish && a.item.data == []
    ensures var hs := history + [Born(fd, kind)];
            && Lived(max, hs, if kind.Connection? then attempts + [a] else attempts, fd) && Alive(hs, fd)
            && var ls := Lifetimes(hs, fd); ls[|ls| - 1] == Life(kind, [], false)
  {
    hide Trace, Projection, Lifetimes;
    var ls, l := Lifetimes(history, fd), Life(kind, [], false);
    LifetimesAppend(history, Born(fd, kind), fd);
    TraceAppend(max, ls, l);
    ProjectionAppend(attempts, a, fd);
    assert Parse(max, []).frames == [];
  }

  lemma BirthShapes(max: nat, sockets: map<Fd, Entry>, history: seq<Happening>, attempts: seq<Attempt>, fd: Fd, kind: SocketKind, a: Attempt)
    requires Shaped(max, sockets, history, attempts) && fd !in sockets
    requires a.item.fd == fd && a.item.kind == Establish && a.item.data == []
    ensures Shaped(max, sockets[fd := Entry(kind, None, [])], history + [Born(fd, kind)],
                   if kind.Connection? then attempts + [a] else attempts)
  {
    assert ShapedAt(max, sockets, history, attempts, fd);
    assert Parse(max, []) == Parsed([], [], false);
    hide Lived, Alive, Lifetimes, Parse;
    BirthLives(max, history, attempts, fd, kind, a);
    var sockets', hs := sockets[fd := Entry(kind, None, [])], history + [Born(fd, kind)];
    hide ShapedAt;
    OthersHistory(max, sockets, history, attempts, Born(fd, kind));
    OthersAttempt(max, sockets, hs, attempts, a);
    var attempts' := if kind.Connection? then attempts + [a] else attempts;
    OthersSockets(max, sockets, hs, attempts', fd, sockets');
    OwnBirth(max, sockets', hs, attempts', fd, kind);
    AllShaped(max, sockets', hs, attempts', fd);
  }

  lemma OwnBirth(max: nat, sockets: map<Fd, Entry>, history: seq<Happening>, attempts: seq<Attempt>, fd: Fd, kind: SocketKind)
    requires Lived(max, history, attempts, fd) && Alive(history, fd)
    requires fd in sockets && sockets[fd] == Entry(kind, None, [])
    requires var ls := Lifetimes(history, fd); ls[|ls| - 1] == Life(kind, [], false)
    ensures ShapedAt(max, sockets, history, attempts, fd)
  {
    assert Parse(max, []) == Parsed([], [], false);
  }

  /** An open lifetime ends. */
  lemma DeathLives(max: nat, history: seq<Happening>, attempts: seq<Attempt>, fd: Fd, a: Attempt)
    requires Lived(max, history, attempts, fd) && Alive(history, fd)
    requires a.item.fd == fd && a.item.kind == Lost && a.item.data == []
    ensures Lived(max, history + [Died(fd)], attempts + [a], fd) && !Alive(history + [Died(fd)], fd)
  {
    hide Trace, Projection, Lifetimes;
    var ls := Lifetimes(history, fd);
    var init, l := ls[..|ls| - 1], ls[|ls| - 1];
    LifetimesAppend(history, Died(fd), fd);
    assert ls == init + [l] && Grown(ls, Died(fd)) == init + [l.(ended := true)];
    TraceAppend(max, init, l);
    TraceAppend(max, init, l.(ended := true));
    ProjectionAppend(attempts, a, fd);
  }

  /** Whatever state its entry is in, a descriptor with an open lifetime can be removed. */
  lemma DeathShapes(max: nat, sockets: map<Fd, Entry>, history: seq<Happening>, attempts: seq<Attempt>, fd: Fd, a: Attempt)
    requires ShapedBut(max, sockets, history, attempts, fd) && Lived(max, history, attempts, fd) && Alive(history, fd)
    requires a.item.fd == fd && a.item.kind == Lost && a.item.data == []
    ensures Shaped(max, sockets - {fd}, history + [Died(fd)], attempts + [a])
  {
    hide Lived, Alive, Lifetimes, Open, Parse;
    DeathLives(max, history, attempts, fd, a);
    var sockets', hs, as' := sockets - {fd}, history + [Died(fd)], attempts + [a];
    OthersHistory(max, sockets, history, attempts, Died(fd));
    OthersAttempt(max, sockets, hs, attempts, a);
    OthersSockets(max, sockets, hs, as', fd, sockets');
    AllShaped(max, sockets', hs, as', fd);
  }

  /** One more byte of a stream that has not failed. */
  lemma ByteParsed(max: nat, s: seq<byte>, b: byte)
    requires !Parse(max, s).bad
    ensures var p := Parse(max, s);
            var q := p.rest + [b];
            && (|q| > LENGTH_SIZE ==> LengthAllowed(max, FrameLength(q)) && |q| <= FrameLength(q))
            && Parse(max, s + [b]) ==
               if |q| < LENGTH_SIZE then Parsed(p.frames, q, false)
               else if !LengthAllowed(max, FrameLength(q)) then Parsed(p.frames, q, true)
               else if |q| == FrameLength(q) then Parsed(p.frames + [q], [], false)
               else Parsed(p.frames, q, false)
  {
    hide Parse, LittleEndian;
    var p := Parse(max, s);
    var q := p.rest + [b];
    ParseAppend(max, s, [b]);
    ParseAppend(max, s, []);
    assert s + [] == s && p.rest + [] == p.rest;
    ParseUnfolds(max, p.rest);
    ParseUnfolds(max, q);
    if |q| > LENGTH_SIZE {
      LengthKept(p.rest, [b]);
    }
    if |q| >= LENGTH_SIZE && |q| == FrameLength(q) {
      assert q[|q|..] == [] && q[..|q|] == q;
      ParseUnfolds(max, []);
    }
  }

  /** The byte either completes a frame, which is then sent, or completes none. */
  lemma ByteLives(max: nat, history: seq<Happening>, attempts: seq<Attempt>, fd: Fd, b: byte, a: Attempt)
    requires Lived(max, history, attempts, fd) && Alive(history, fd)
    requires var ls := Lifetimes(history, fd); !ls[|ls| - 1].kind.Server? && !Parse(max, ls[|ls| - 1].stream).bad
    requires a.item.fd == fd && a.item.kind == Package
    ensures var ls, hs := Lifetimes(history, fd), history + [Got(fd, b)];
            var l := ls[|ls| - 1];
            var before, after := Parse(max, l.stream), Parse(max, l.stream + [b]);
            && Alive(hs, fd) && Lifetimes(hs, fd) == ls[|ls| - 1 := l.(stream := l.stream + [b])]
            && (after.frames == before.frames ==> Lived(max, hs, attempts, fd))
            && (after.frames == before.frames + [a.item.data] ==> Lived(max, hs, attempts + [a], fd))
  {
    hide Trace, Projection, Lifetimes, Parse;
    var ls := Lifetimes(history, fd);
    var init, l := ls[..|ls| - 1], ls[|ls| - 1];
    var l' := l.(stream := l.stream + [b]);
    LifetimesAppend(history, Got(fd, b), fd);
    assert ls == init + [l] && Grown(ls, Got(fd, b)) == init + [l'];
    TraceAppend(max, init, l);
    TraceAppend(max, init, l');
    ProjectionAppend(attempts, a, fd);
    var before, after := Parse(max, l.stream), Parse(max, l'.stream);
    if after.frames == before.frames + [a.item.data] {
      assert PackagesSent(after.frames) == PackagesSent(before.frames) + [Sent(Package, a.item.data)];
    }
  }

  // ----- ownership

  datatype Place = Reading(fd: Fd) | Queued | InWorker | Freed

  /** The holders of messages, and where each allocation is recorded to be. */
  datatype Holders = Holders(
    sockets: map<Fd, Entry>, mq: seq<Item>, worker: Option<Item>, freed: seq<nat>, place: map<nat, Place>, next: nat)

  ghost predicate DistinctItems(mq: seq<Item>) {
    forall i, j :: 0 <= i < j < |mq| ==> mq[i].id != mq[j].id
  }

  ghost predicate DistinctIds(ids: seq<nat>) {
    forall i, j :: 0 <= i < j < |ids| ==> ids[i] != ids[j]
  }

  ghost predicate HasItem(mq: seq<Item>, id: nat) {
    exists i :: 0 <= i < |mq| && mq[i].id == id
  }

  /** Allocation `id` is exactly where its place says, and nowhere else. */
  ghost predicate PlacedRight(h: Holders, id: nat) {
    && id in h.place
    && (HasItem(h.mq, id) <==> h.place[id] == Queued)
    && (id in h.freed <==> h.place[id] == Freed)
    && ((h.worker.Some? && h.worker.value.id == id) <==> h.place[id] == InWorker)
    && (forall fd: Fd :: fd in h.sockets && h.sockets[fd].reading == Some(id) <==> h.place[id] == Reading(fd))
  }

  /** Every allocation has exactly one owner, and is freed at most once; there are no others. */
  ghost predicate Owned(h: Holders) {
    && (forall id: nat :: id < h.next ==> PlacedRight(h, id))
    && DistinctItems(h.mq) && DistinctIds(h.freed)
    && (forall i :: 0 <= i < |h.mq| ==> h.mq[i].id < h.next)
    && (forall id :: id in h.freed ==> id < h.next)
    && (h.worker.Some? ==> h.worker.value.id < h.next)
    && (forall fd: Fd :: fd in h.sockets && h.sockets[fd].reading.Some? ==> h.sockets[fd].reading.value < h.next)
  }

  lemma HasItemAppend(mq: seq<Item>, item: Item, id: nat)
    ensures HasItem(mq + [item], id) <==> HasItem(mq, id) || id == item.id
  {
    assert (mq + [item])[|mq|].id == item.id;
    if HasItem(mq, id) {
      var i :| 0 <= i < |mq| && mq[i].id == id;
      assert (mq + [item])[i].id == id;
    }
  }

  lemma HasItemPop(mq: seq<Item>, id: nat)
    requires mq != [] && DistinctItems(mq)
    ensures HasItem(mq[1..], id) <==> HasItem(mq, id) && id != mq[0].id
  {
    if HasItem(mq[1..], id) {
      var i :| 0 <= i < |mq[1..]| && mq[1..][i].id == id;
      assert mq[i + 1].id == id;
    }
    if HasItem(mq, id) && id != mq[0].id {
      var i :| 0 <= i < |mq| && mq[i].id == id;
      assert mq[1..][i - 1].id == id;
    }
  }

  /** A new allocation goes to a socket without a message, to the queue, or is freed at once. */
  lemma Allocate(h: Holders, h': Holders, p: Place, item: Item)
    requires Owned(h) && item.id == h.next
    requires h'.next == h.next + 1 && h'.place == h.place[h.next := p] && h'.worker == h.worker
    requires match p
             case Reading(fd) =>
               && fd in h.sockets && h.sockets[fd].reading == None
               && h'.sockets == h.sockets[fd := h.sockets[fd].(reading := Some(h.next))]
               && h'.mq == h.mq && h'.freed == h.freed
             case Queued => h'.sockets == h.sockets && h'.mq == h.mq + [item] && h'.freed == h.freed
             case Freed => h'.sockets == h.sockets && h'.mq == h.mq && h'.freed == h.freed + [h.next]
             case InWorker => false
    ensures Owned(h')
  {
    hide HasItem;
    forall id: nat | id < h'.next ensures PlacedRight(h', id) {
      HasItemAppend(h.mq, item, id);
      assert id < h.next ==> PlacedRight(h, id);
      NotThere(h);
    }
    FreedBelow(h);
  }

  lemma FreedBelow(h: Holders)
    requires Owned(h)
    ensures forall i :: 0 <= i < |h.freed| ==> h.freed[i] < h.next
  {
    forall i | 0 <= i < |h.freed| ensures h.freed[i] < h.next {
      assert h.freed[i] in h.freed;
    }
  }

  lemma NotThere(h: Holders)
    requires Owned(h)
    ensures !HasItem(h.mq, h.next) && h.next !in h.freed
  {
  }

  /** A socket's unfinished or refused message is pushed, or freed with the socket. */
  lemma LeaveSocket(h: Holders, h': Holders, fd: Fd, p: Place, item: Item)
    requires Owned(h) && fd in h.sockets && h.sockets[fd].reading == Some(item.id)
    requires h'.next == h.next && h'.place == h.place[item.id := p] && h'.worker == h.worker
    requires match p
             case Queued =>
               && h'.sockets == h.sockets[fd := h.sockets[fd].(reading := None, partial := [])]
               && h'.mq == h.mq + [item] && h'.freed == h.freed
             case Freed => h'.sockets == h.sockets - {fd} && h'.mq == h.mq && h'.freed == h.freed + [item.id]
             case _ => false
    ensures Owned(h')
  {
    hide HasItem;
    assert PlacedRight(h, item.id);
    forall id: nat | id < h'.next ensures PlacedRight(h', id) {
      HasItemAppend(h.mq, item, id);
      assert PlacedRight(h, id);
    }
    if p.Queued? {
      forall i | 0 <= i < |h.mq| ensures h.mq[i].id != item.id {
        HasItemAt(h.mq, i);
      }
    }
  }

  lemma HasItemAt(mq: seq<Item>, i: nat)
    requires i < |mq|
    ensures HasItem(mq, mq[i].id)
  {
  }

  /** The oldest queued message goes to the worker, or is freed at shutdown. */
  lemma LeaveQueue(h: Holders, h': Holders, p: Place)
    requires Owned(h) && h.mq != []
    requires h'.next == h.next && h'.place == h.place[h.mq[0].id := p] && h'.sockets == h.sockets && h'.mq == h.mq[1..]
    requires match p
             case InWorker => h.worker == None && h'.worker == Some(h.mq[0]) && h'.freed == h.freed
             case Freed => h'.worker == h.worker && h'.freed == h.freed + [h.mq[0].id]
             case _ => false
    ensures Owned(h')
  {
    hide HasItem;
    HasItemAt(h.mq, 0);
    assert PlacedRight(h, h.mq[0].id);
    forall id: nat | id < h'.next ensures PlacedRight(h', id) {
      HasItemPop(h.mq, id);
      assert PlacedRight(h, id);
    }
  }

  /** The worker frees what it has handled. */
  lemma LeaveWorker(h: Holders, h': Holders)
    requires Owned(h) && h.worker.Some?
    requires h' == h.(worker := None, freed := h.freed + [h.worker.value.id], place := h.place[h.worker.value.id := Freed])
    ensures Owned(h')
  {
    hide HasItem;
    assert PlacedRight(h, h.worker.value.id);
    forall id: nat | id < h'.next ensures PlacedRight(h', id) {
      assert PlacedRight(h, id);
    }
  }

  /** Entries without a message may come and go. */
  lemma EmptyEntries(h: Holders, sockets': map<Fd, Entry>)
    requires Owned(h)
    requires forall fd: Fd :: (fd in h.sockets && h.sockets[fd].reading.Some?) || (fd in sockets' && sockets'[fd].reading.Some?) ==>
               fd in h.sockets && fd in sockets' && sockets'[fd].reading == h.sockets[fd].reading
    ensures Owned(h.(sockets := sockets'))
  {
    hide HasItem;
    var h' := h.(sockets := sockets');
    forall id: nat | id < h'.next ensures PlacedRight(h', id) {
      assert PlacedRight(h, id);
    }
  }

  // ----- the thread

  /** What `accept` hands out, and whether the poll takes it. */
  datatype Accepted = Accepted(fd: Fd, registered: bool)

  /** `received` is what one poll reads until it blocks, or with `lost` until the connection fails. */
  datatype PollEvent =
    | Hangup(fd: Fd)
    | Ready(fd: Fd, readable: bool, accepts: seq<Accepted>, received: seq<byte>, lost: bool, writable: bool, written: bool)

  function AcceptedItems(attempts: seq<Attempt>): seq<Item> {
    if attempts == [] then []
    else AcceptedItems(attempts[..|attempts| - 1]) + (var a := attempts[|attempts| - 1]; if a.ok then [a.item] else [])
  }

  lemma AcceptedAppend(attempts: seq<Attempt>, a: Attempt)
    ensures AcceptedItems(attempts + [a]) == AcceptedItems(attempts) + if a.ok then [a.item] else []
  {
    assert (attempts + [a])[..|attempts|] == attempts;
  }

  // ----- what each operation does to the table and the queue

  datatype Core = Core(
    capacity: nat, max: nat, sockets: map<Fd, Entry>, mq: seq<Item>, freed: seq<nat>, next: nat,
    attempts: seq<Attempt>, history: seq<Happening>)

  /** A new message pushed, or freed for lack of room. */
  function Announced(c: Core, fd: Fd, kind: Kind): Core {
    var item, ok := Item(c.next, fd, kind, []), |c.mq| < c.capacity;
    c.(mq := if ok then c.mq + [item] else c.mq,
       freed := if ok then c.freed else c.freed + [item.id],
       next := c.next + 1, attempts := c.attempts + [Attempt(item, ok)])
  }

  /** The entry is gone, and its unfinished message freed. */
  function Dropped(c: Core, fd: Fd): Core
    requires fd in c.sockets
  {
    var r := c.sockets[fd].reading;
    c.(sockets := c.sockets - {fd}, freed := if r.Some? then c.freed + [r.value] else c.freed,
       history := c.history + [Died(fd)])
  }

  function Removed(c: Core, fd: Fd): Core {
    if fd in c.sockets then Announced(Dropped(c, fd), fd, Lost) else c
  }

  function Added(c: Core, fd: Fd, kind: SocketKind): Core {
    c.(sockets := c.sockets[fd := Entry(kind, None, [])], history := c.history + [Born(fd, kind)])
  }

  function Joined(c: Core, a: Accepted): Core {
    if a.registered && a.fd !in c.sockets then Announced(Added(c, a.fd, Connection), a.fd, Establish) else c
  }

  function JoinedAll(c: Core, accepts: seq<Accepted>): Core
    decreases |accepts|
  {
    if accepts == [] then c else JoinedAll(Joined(c, accepts[0]), accepts[1..])
  }

  function Begun(c: Core, fd: Fd): Core
    requires fd in c.sockets
  {
    c.(sockets := c.sockets[fd := c.sockets[fd].(reading := Some(c.next))], next := c.next + 1)
  }

  /** A finished frame is pushed; without room the socket is given up, and the frame with it. */
  function Finished(c: Core, fd: Fd): Core
    requires fd in c.sockets && c.sockets[fd].reading.Some?
  {
    var e, ok := c.sockets[fd], |c.mq| < c.capacity;
    var item := Item(e.reading.value, fd, Package, e.partial);
    var c1 := c.(attempts := c.attempts + [Attempt(item, ok)]);
    if ok then c1.(mq := c.mq + [item], sockets := c.sockets[fd := e.(reading := None, partial := [])])
    else Removed(c1, fd)
  }

  function Stored(c: Core, fd: Fd, b: byte): Core
    requires fd in c.sockets
  {
    c.(sockets := c.sockets[fd := c.sockets[fd].(partial := c.sockets[fd].partial + [b])],
       history := c.history + [Got(fd, b)])
  }

  /** A message is allocated once the length is known and allowed, and pushed when the frame is complete. */
  function ByteRead(c: Core, fd: Fd, b: byte): Core
    requires fd in c.sockets
  {
    var c1, p := Stored(c, fd, b), c.sockets[fd].partial + [b];
    if |p| == LENGTH_SIZE then if LengthAllowed(c.max, FrameLength(p)) then Begun(c1, fd) else Removed(c1, fd)
    else if |p| > LENGTH_SIZE && |p| == FrameLength(p) && c1.sockets[fd].reading.Some? then Finished(c1, fd)
    else c1
  }

  /** A block inside a length prefix counts as an error. */
  function ReadOn(c: Core, fd: Fd, received: seq<byte>, lost: bool): Core
    decreases |received|
  {
    if fd !in c.sockets then c
    else if received == [] then
      if lost || 0 < |c.sockets[fd].partial| < LENGTH_SIZE then Removed(c, fd) else c
    else ReadOn(ByteRead(c, fd, received[0]), fd, received[1..], lost)
  }

  function ReadFrom(c: Core, fd: Fd, accepts: seq<Accepted>, received: seq<byte>, lost: bool): Core {
    if fd !in c.sockets then c
    else if c.sockets[fd].kind.Server? then JoinedAll(c, accepts)
    else ReadOn(c, fd, received, lost)
  }

  function Handled(c: Core, ev: PollEvent): Core {
    match ev
    case Hangup(fd) => Removed(c, fd)
    case Ready(fd, readable, accepts, received, lost, writable, written) =>
      var c1 := if readable then ReadFrom(c, fd, accepts, received, lost) else c;
      if writable && fd in c1.sockets && !c1.sockets[fd].kind.Server? && !written then Removed(c1, fd) else c1
  }

  function HandledAll(c: Core, events: seq<PollEvent>): Core
    decreases |events|
  {
    if events == [] then c else HandledAll(Handled(c, events[0]), events[1..])
  }

  /** The frame under construction is complete: pushing it, or giving up the socket with it, keeps all histories in shape. */
  ghost predicate FinishShapes(c: Core, fd: Fd)
    requires fd in c.sockets && c.sockets[fd].reading.Some?
  {
    var e, ok := c.sockets[fd], |c.mq| < c.capacity;
    var attempts := c.attempts + [Attempt(Item(e.reading.value, fd, Package, e.partial), ok)];
    if ok then Shaped(c.max, c.sockets[fd := e.(reading := None, partial := [])], c.history, attempts)
    else ShapedBut(c.max, c.sockets, c.history, attempts, fd) && Lived(c.max, c.history, attempts, fd) && Alive(c.history, fd)
  }

  /** After one more byte: what is left to do keeps all histories in shape. */
  lemma ByteShapes(c: Core, fd: Fd, b: byte)
    requires Shaped(c.max, c.sockets, c.history, c.attempts) && fd in c.sockets && !c.sockets[fd].kind.Server?
    ensures var c1 := Stored(c, fd, b);
            var e := c1.sockets[fd];
            if |e.partial| == LENGTH_SIZE then
              && e.reading == None
              && if LengthAllowed(c.max, FrameLength(e.partial))
                 then Shaped(c.max, Begun(c1, fd).sockets, c1.history, c.attempts)
                 else ShapedBut(c.max, c1.sockets, c1.history, c.attempts, fd)
                      && Lived(c.max, c1.history, c.attempts, fd) && Alive(c1.history, fd)
            else if |e.partial| > LENGTH_SIZE && |e.partial| == FrameLength(e.partial) then
              e.reading.Some? && FinishShapes(c1, fd)
            else Shaped(c.max, c1.sockets, c1.history, c.attempts)
  {
    hide Shaped, ShapedBut, ShapedAt, Lifetimes, Parse, LittleEndian, Lived, Alive;
    var e := c.sockets[fd];
    var q := e.partial + [b];
    var id := if e.reading.Some? then e.reading.value else 0;
    var a := Attempt(Item(id, fd, Package, q), |c.mq| < c.capacity);
    var l := ByteArrives(c, fd, b, a);
    var c1 := Stored(c, fd, b);
    if |q| > LENGTH_SIZE && |q| == FrameLength(q) {
      OthersAttempt(c.max, c1.sockets, c1.history, c.attempts, a);
      if a.ok {
        StillOpen(c.max, c1.sockets, c1.history, c.attempts + [a], fd, e.(reading := None, partial := []));
      }
    } else if |q| == LENGTH_SIZE {
      if LengthAllowed(c.max, FrameLength(q)) {
        StillOpen(c.max, c1.sockets, c1.history, c.attempts, fd, e.(reading := Some(c.next), partial := q));
      }
    } else {
      StillOpen(c.max, c1.sockets, c1.history, c.attempts, fd, e.(partial := q));
      assert c1.sockets[fd := e.(partial := q)] == c1.sockets;
    }
  }

  /** The byte in the table and in the history: whether or not it completes a frame. */
  lemma ByteArrives(c: Core, fd: Fd, b: byte, a: Attempt) returns (l: Life)
    requires Shaped(c.max, c.sockets, c.history, c.attempts) && fd in c.sockets && !c.sockets[fd].kind.Server?
    requires a.item.fd == fd && a.item.kind == Package && a.item.data == c.sockets[fd].partial + [b]
    ensures var c1, e, q := Stored(c, fd, b), c.sockets[fd], c.sockets[fd].partial + [b];
            var ls, whole := Lifetimes(c1.history, fd), |q| > LENGTH_SIZE && |q| == FrameLength(q);
            && ShapedBut(c.max, c1.sockets, c1.history, c.attempts, fd) && Alive(c1.history, fd)
            && Lived(c.max, c1.history, if whole then c.attempts + [a] else c.attempts, fd)
            && l == ls[|ls| - 1] && l.kind == e.kind
            && (e.reading.Some? <==> |q| > LENGTH_SIZE)
            && (|q| >= LENGTH_SIZE ==> (Parse(c.max, l.stream).bad <==> !LengthAllowed(c.max, FrameLength(q))))
            && (|q| > LENGTH_SIZE ==> LengthAllowed(c.max, FrameLength(q)))
            && (|q| < LENGTH_SIZE ==> !Parse(c.max, l.stream).bad)
            && (whole ==> Parse(c.max, l.stream).rest == [])
            && (!whole ==> Parse(c.max, l.stream).rest == q)
  {
    var max, sockets, history, attempts := c.max, c.sockets, c.history, c.attempts;
    assert ShapedAt(max, sockets, history, attempts, fd);
    assert ShapedBut(max, sockets, history, attempts, fd);
    hide Shaped, ShapedBut, Lifetimes, Parse, LittleEndian;
    var ls := Lifetimes(history, fd);
    ByteParsed(max, ls[|ls| - 1].stream, b);
    ByteLives(max, history, attempts, fd, b, a);
    hide Lived, Alive;
    var c1 := Stored(c, fd, b);
    OthersHistory(max, sockets, history, attempts, Got(fd, b));
    OthersSockets(max, sockets, c1.history, attempts, fd, c1.sockets);
    l := ls[|ls| - 1].(stream := ls[|ls| - 1].stream + [b]);
  }

  lemma StillOpen(max: nat, sockets: map<Fd, Entry>, history: seq<Happening>, attempts: seq<Attempt>, fd: Fd, e: Entry)
    requires ShapedBut(max, sockets, history, attempts, fd) && Lived(max, history, attempts, fd) && Alive(history, fd)
    requires var ls := Lifetimes(history, fd); Open(max, ls[|ls| - 1], e)
    ensures Shaped(max, sockets[fd := e], history, attempts)
  {
    hide Lived, Open, Lifetimes;
    var sockets' := sockets[fd := e];
    OthersSockets(max, sockets, history, attempts, fd, sockets');
    AllShaped(max, sockets', history, attempts, fd);
  }

  lemma KindStays(c: Core, fd: Fd, b: byte)
    requires fd in c.sockets && fd in ByteRead(c, fd, b).sockets
    ensures ByteRead(c, fd, b).sockets[fd].kind == c.sockets[fd].kind
  {
  }

  // ----- which reads a connection survives

  /** What has been received in the open lifetime. */
  ghost function StreamOf(history: seq<Happening>, fd: Fd): seq<byte>
    requires Alive(history, fd)
  {
    var ls := Lifetimes(history, fd); ls[|ls| - 1].stream
  }

  /** A connection the table holds, with its history in shape. */
  ghost predicate Connected(c: Core, fd: Fd) {
    && Shaped(c.max, c.sockets, c.history, c.attempts) && |c.mq| <= c.capacity
    && fd in c.sockets && !c.sockets[fd].kind.Server? && Alive(c.history, fd)
  }

  lemma StreamGrows(c: Core, fd: Fd, b: byte)
    requires Connected(c, fd)
    ensures Alive(c.history + [Got(fd, b)], fd) && StreamOf(c.history + [Got(fd, b)], fd) == StreamOf(c.history, fd) + [b]
    ensures var p := Parse(c.max, StreamOf(c.history, fd)); !p.bad && p.rest == c.sockets[fd].partial
  {
    assert ShapedAt(c.max, c.sockets, c.history, c.attempts, fd);
    hide Lifetimes, Parse, Lived;
    LifetimesAppend(c.history, Got(fd, b), fd);
  }

  /** One byte breaks the connection exactly if it completes a forbidden length, or a frame without room. */
  lemma ByteSurvives(c: Core, fd: Fd, b: byte)
    requires Connected(c, fd)
    ensures var c', s := ByteRead(c, fd, b), StreamOf(c.history, fd);
            var p, p' := Parse(c.max, s), Parse(c.max, s + [b]);
            && (fd in c'.sockets <==> !p'.bad && |c.mq| + |p'.frames| - |p.frames| <= c.capacity)
            && (fd in c'.sockets ==>
                  && Connected(c', fd) && StreamOf(c'.history, fd) == s + [b]
                  && c'.max == c.max && c'.capacity == c.capacity && |c'.mq| == |c.mq| + |p'.frames| - |p.frames|)
  {
    hide Shaped, ShapedBut, Lived, Alive, Parse, LittleEndian, StreamOf;
    StreamGrows(c, fd, b);
    ByteParsed(c.max, StreamOf(c.history, fd), b);
    ByteShapes(c, fd, b);
  }

  /**
   A poll leaves the connection in the table exactly if it does not end in an error or inside
   a length prefix, no length it completes is forbidden, and the queue has room for all the
   frames it completes.
   */
  lemma {:induction false} ReadSurvives(c: Core, fd: Fd, received: seq<byte>, lost: bool)
    requires Connected(c, fd)
    ensures var s := StreamOf(c.history, fd);
            var p, p' := Parse(c.max, s), Parse(c.max, s + received);
            fd in ReadOn(c, fd, received, lost).sockets <==>
              !lost && !p'.bad && OutsidePrefix(c.max, s + received) && |c.mq| + |p'.frames| - |p.frames| <= c.capacity
    decreases |received|
  {
    hide Shaped, Alive, Parse, StreamOf, ByteRead;
    var s := StreamOf(c.history, fd);
    if received == [] {
      assert s + received == s;
      SettledAfterRead(c, fd);
    } else {
      var b, more := received[0], received[1..];
      assert s + received == s + [b] + more;
      ByteSurvives(c, fd, b);
      ParseAppend(c.max, s + [b], more);
      var c' := ByteRead(c, fd, b);
      if fd in c'.sockets {
        ReadSurvives(c', fd, more, lost);
      }
    }
  }

  lemma SettledAfterRead(c: Core, fd: Fd)
    requires Connected(c, fd)
    ensures var s := StreamOf(c.history, fd);
            && !Parse(c.max, s).bad && |c.mq| <= c.capacity
            && (OutsidePrefix(c.max, s) <==> !(0 < |c.sockets[fd].partial| < LENGTH_SIZE))
  {
    StreamGrows(c, fd, 0);
  }

  class IoThread {
    const capacity: nat
    const max: nat
    var sockets: map<Fd, Entry>
    var mq: seq<Item>
    var worker: Option<Item>
    var freed: seq<nat>
    var next: nat

    ghost var place: map<nat, Place>
    ghost var attempts: seq<Attempt>
    ghost var history: seq<Happening>
    ghost var taken: seq<Item>

    ghost function View(): Holders
      reads this
    {
      Holders(sockets, mq, worker, freed, place, next)
    }

    ghost function State(): Core
      reads this
    {
      Core(capacity, max, sockets, mq, freed, next, attempts, history)
    }

    /** The queue holds what was accepted and not yet taken. */
    ghost predicate InOrder()
      reads this
    {
      |mq| <= capacity && AcceptedItems(attempts) == taken + mq
    }

    ghost predicate Inv()
      reads this
    {
      Owned(View()) && Shaped(max, sockets, history, attempts) && InOrder()
    }

    constructor (capacity: nat, max: nat)
      ensures Inv() && State() == Core(capacity, max, map[], [], [], 0, [], []) && worker == None && taken == []
    {
      this.capacity, this.max := capacity, max;
      sockets, mq, worker, freed, next := map[], [], None, [], 0;
      place, attempts, history, taken := map[], [], [], [];
    }

    /** Sends an establishment or a loss to the worker; without room the message is freed. */
    method Event(fd: Fd, kind: Kind)
      requires Owned(View()) && InOrder()
      requires Shaped(max, sockets, history, attempts + [Attempt(Item(next, fd, kind, []), |mq| < capacity)])
      modifies this`mq, this`freed, this`next, this`place, this`attempts
      ensures Inv() && State() == Announced(old(State()), fd, kind)
    {
      hide Owned, Shaped, AcceptedItems;
      ghost var h := View();
      var item := Item(next, fd, kind, []);
      var ok := |mq| < capacity;
      next := next + 1;
      if ok {
        mq := mq + [item];
        place := place[item.id := Queued];
      } else {
        freed := freed + [item.id];
        place := place[item.id := Freed];
      }
      Allocate(h, View(), if ok then Queued else Freed, item);
      AcceptedAppend(attempts, Attempt(item, ok));
      attempts := attempts + [Attempt(item, ok)];
    }

    /** Deletes the socket with any unfinished message, then reports the loss. */
    method RemoveSocket(fd: Fd)
      requires Inv()
      modifies this
      ensures Inv() && State() == Removed(old(State()), fd) && worker == old(worker) && taken == old(taken)
    {
      if fd in sockets {
        assert ShapedAt(max, sockets, history, attempts, fd);
        hide Owned, ShapedAt, Lived, Alive, InOrder, Announced, Dropped;
        DropAndReport(fd);
      }
    }

    /** The same for an entry in whatever state. */
    method DropAndReport(fd: Fd)
      requires Owned(View()) && InOrder() && fd in sockets
      requires ShapedBut(max, sockets, history, attempts, fd) && Lived(max, history, attempts, fd) && Alive(history, fd)
      modifies this`sockets, this`mq, this`freed, this`next, this`place, this`attempts, this`history
      ensures Inv() && State() == Removed(old(State()), fd)
    {
      hide Owned, Shaped, ShapedBut, Lived, Alive, AcceptedItems, Announced;
      DeathShapes(max, sockets, history, attempts, fd, Attempt(Item(next, fd, Lost, []), |mq| < capacity));
      DropEntry(fd);
      Event(fd, Lost);
    }

    /** Deletes a socket, freeing its unfinished message. */
    method DropEntry(fd: Fd)
      requires Owned(View()) && fd in sockets
      modifies this`sockets, this`freed, this`place, this`history
      ensures Owned(View()) && State() == Dropped(old(State()), fd)
    {
      hide Owned;
      ghost var h := View();
      var reading := sockets[fd].reading;
      sockets := sockets - {fd};
      history := history + [Died(fd)];
      if reading.Some? {
        freed := freed + [reading.value];
        place := place[reading.value := Freed];
        LeaveSocket(h, View(), fd, Freed, Item(reading.value, fd, Package, []));
      } else {
        EmptyEntries(h, sockets);
      }
    }

    /** Takes new connections until there are none; one the poll refuses is dropped silently. */
    method AcceptSocket(accepts: seq<Accepted>)
      requires Inv()
      modifies this
      ensures Inv() && State() == JoinedAll(old(State()), accepts) && worker == old(worker) && taken == old(taken)
    {
      hide Owned, Shaped, InOrder, Joined;
      var i := 0;
      while i < |accepts|
        invariant 0 <= i <= |accepts| && Inv() && worker == old(worker) && taken == old(taken)
        invariant JoinedAll(State(), accepts[i..]) == JoinedAll(old(State()), accepts)
      {
        assert accepts[i..][1..] == accepts[i + 1..];
        Join(accepts[i]);
        i := i + 1;
      }
    }

    /** One accepted connection; the kernel hands out no descriptor that is still open. */
    method Join(a: Accepted)
      requires Inv()
      modifies this`sockets, this`mq, this`freed, this`next, this`place, this`attempts, this`history
      ensures Inv() && State() == Joined(old(State()), a)
    {
      hide Owned, Shaped, AcceptedItems, Announced;
      var Accepted(fd, registered) := a;
      if !registered || fd in sockets {
        return;
      }
      ghost var h := View();
      BirthShapes(max, sockets, history, attempts, fd, Connection, Attempt(Item(next, fd, Establish, []), |mq| < capacity));
      sockets := sockets[fd := Entry(Connection, None, [])];
      history := history + [Born(fd, Connection)];
      EmptyEntries(h, sockets);
      Event(fd, Establish);
    }

    /** One byte for the unfinished frame. */
    method Store(fd: Fd, b: byte)
      requires Owned(View()) && fd in sockets
      modifies this`sockets, this`history
      ensures Owned(View()) && State() == Stored(old(State()), fd, b)
    {
      hide Owned;
      ghost var h := View();
      sockets := sockets[fd := sockets[fd].(partial := sockets[fd].partial + [b])];
      history := history + [Got(fd, b)];
      EmptyEntries(h, sockets);
    }

    /** Allocates the message for the next frame of a socket. */
    method BeginFrame(fd: Fd)
      requires Owned(View()) && fd in sockets && sockets[fd].reading == None
      modifies this`sockets, this`next, this`place
      ensures Owned(View()) && State() == Begun(old(State()), fd)
    {
      hide Owned;
      ghost var h := View();
      sockets := sockets[fd := sockets[fd].(reading := Some(next))];
      place := place[next := Reading(fd)];
      next := next + 1;
      Allocate(h, View(), Reading(fd), Item(h.next, fd, Package, []));
    }

    /** Pushes the finished message; refused, it is freed with the socket. */
    method FinishFrame(fd: Fd)
      requires Owned(View()) && InOrder() && fd in sockets && sockets[fd].reading.Some?
      requires FinishShapes(State(), fd)
      modifies this`sockets, this`mq, this`freed, this`next, this`place, this`attempts, this`history
      ensures Inv() && State() == Finished(old(State()), fd)
    {
      hide Owned, Shaped, ShapedBut, Lived, Alive, AcceptedItems;
      ghost var h := View();
      var item := Item(sockets[fd].reading.value, fd, Package, sockets[fd].partial);
      var ok := |mq| < capacity;
      AcceptedAppend(attempts, Attempt(item, ok));
      attempts := attempts + [Attempt(item, ok)];
      if ok {
        mq := mq + [item];
        sockets := sockets[fd := sockets[fd].(reading := None, partial := [])];
        place := place[item.id := Queued];
        LeaveSocket(h, View(), fd, Queued, item);
      } else {
        DropAndReport(fd);
      }
    }

    /** One byte received. */
    method ReadByte(fd: Fd, b: byte)
      requires Inv() && fd in sockets && !sockets[fd].kind.Server?
      modifies this
      ensures Inv() && State() == ByteRead(old(State()), fd, b) && worker == old(worker) && taken == old(taken)
      ensures fd in sockets ==> !sockets[fd].kind.Server?
    {
      hide Owned, Shaped, ShapedBut, Lived, Alive, AcceptedItems, Removed, Finished, Parse, LittleEndian;
      ByteShapes(State(), fd, b);
      Store(fd, b);
      var p := sockets[fd].partial;
      if |p| == LENGTH_SIZE {
        if LengthAllowed(max, FrameLength(p)) {
          BeginFrame(fd);
        } else {
          DropAndReport(fd);
        }
      } else if |p| > LENGTH_SIZE && |p| == FrameLength(p) {
        FinishFrame(fd);
      }
      if fd in sockets {
        KindStays(old(State()), fd, b);
      }
    }

    /** Reads on a connected socket, and removes it when the read fails. */
    method ReadReceived(fd: Fd, received: seq<byte>, lost: bool)
      requires Inv() && fd in sockets && !sockets[fd].kind.Server?
      modifies this
      ensures Inv() && State() == ReadOn(old(State()), fd, received, lost) && worker == old(worker) && taken == old(taken)
    {
      hide Owned, Shaped, InOrder, Removed, ByteRead;
      var i := 0;
      while i < |received| && fd in sockets
        invariant 0 <= i <= |received| && Inv() && worker == old(worker) && taken == old(taken)
        invariant fd in sockets ==> !sockets[fd].kind.Server?
        invariant ReadOn(State(), fd, received[i..], lost) == ReadOn(old(State()), fd, received, lost)
      {
        assert received[i..][1..] == received[i + 1..];
        ReadByte(fd, received[i]);
        i := i + 1;
      }
      if fd in sockets && (lost || 0 < |sockets[fd].partial| < LENGTH_SIZE) {
        RemoveSocket(fd);
      }
    }

    /** Accepts on a listening socket; reads on any other. */
    method ReadSocket(fd: Fd, accepts: seq<Accepted>, received: seq<byte>, lost: bool)
      requires Inv()
      modifies this
      ensures Inv() && State() == ReadFrom(old(State()), fd, accepts, received, lost) && worker == old(worker) && taken == old(taken)
    {
      hide Owned, Shaped, InOrder, JoinedAll, ReadOn;
      if fd !in sockets {
        return;
      }
      if sockets[fd].kind.Server? {
        AcceptSocket(accepts);
      } else {
        ReadReceived(fd, received, lost);
      }
    }

    /** One poll event. */
    method HandleEvent(ev: PollEvent)
      requires Inv()
      modifies this
      ensures Inv() && State() == Handled(old(State()), ev) && worker == old(worker) && taken == old(taken)
    {
      hide Owned, Shaped, InOrder, Removed, ReadFrom;
      match ev
      case Hangup(fd) =>
        RemoveSocket(fd);
      case Ready(fd, readable, accepts, received, lost, writable, written) =>
        if readable {
          ReadSocket(fd, accepts, received, lost);
        }
        if writable && fd in sockets && !sockets[fd].kind.Server? && !written {
          RemoveSocket(fd);
        }
    }

    /** One batch of poll events, in order. */
    method DoMessage(events: seq<PollEvent>)
      requires Inv()
      modifies this
      ensures Inv() && State() == HandledAll(old(State()), events) && worker == old(worker) && taken == old(taken)
    {
      hide Owned, Shaped, InOrder, Handled;
      var i := 0;
      while i < |events|
        invariant 0 <= i <= |events| && Inv() && worker == old(worker) && taken == old(taken)
        invariant HandledAll(State(), events[i..]) == HandledAll(old(State()), events)
      {
        assert events[i..][1..] == events[i + 1..];
        HandleEvent(events[i]);
        i := i + 1;
      }
    }

    /** A listening or connecting socket the worker makes. */
    method NewSocket(fd: Fd, kind: SocketKind)
      requires Inv() && fd !in sockets && !kind.Connection?
      modifies this`sockets, this`history
      ensures Inv() && State() == Added(old(State()), fd, kind)
    {
      hide Owned, Shaped, AcceptedItems;
      ghost var h := View();
      BirthShapes(max, sockets, history, attempts, fd, kind, Attempt(Item(next, fd, Establish, []), true));
      sockets := sockets[fd := Entry(kind, None, [])];
      history := history + [Born(fd, kind)];
      EmptyEntries(h, sockets);
    }

    /** The worker takes the oldest message, handles it, and frees it. */
    method WorkerTakes()
      requires Inv() && worker == None
      modifies this`mq, this`worker, this`place, this`taken
      ensures Inv()
      ensures if old(mq) == [] then worker == None && mq == [] && taken == old(taken)
              else worker == Some(old(mq)[0]) && mq == old(mq)[1..] && taken == old(taken) + [old(mq)[0]]
    {
      hide Owned, Shaped, AcceptedItems;
      if mq == [] {
        return;
      }
      ghost var h := View();
      worker := Some(mq[0]);
      place := place[mq[0].id := InWorker];
      taken := taken + [mq[0]];
      mq := mq[1..];
      LeaveQueue(h, View(), InWorker);
    }

    method WorkerFrees()
      requires Inv() && worker.Some?
      modifies this`worker, this`freed, this`place
      ensures Inv() && worker == None && freed == old(freed) + [old(worker).value.id]
    {
      hide Owned, Shaped, AcceptedItems;
      ghost var h := View();
      freed := freed + [worker.value.id];
      place := place[worker.value.id := Freed];
      worker := None;
      LeaveWorker(h, View());
    }

    /** One act of either thread; the worker holds one message at a time. */
    method Perform(act: Act)
      requires Inv()
      modifies this
      ensures Inv() && Both(State(), worker, taken) == Acted(old(Both(State(), worker, taken)), act)
    {
      hide Owned, Shaped, InOrder, HandledAll;
      match act
      case Batch(events) => DoMessage(events);
      case Connect(fd, kind) =>
        if fd !in sockets && !kind.Connection? {
          NewSocket(fd, kind);
        }
      case Take =>
        if worker == None {
          WorkerTakes();
        }
      case Free =>
        if worker.Some? {
          WorkerFrees();
        }
    }

    /** Deletes every socket of the table with its unfinished message, without telling the worker. */
    method DeleteSockets()
      requires Owned(View())
      modifies this`sockets, this`freed, this`place, this`history
      ensures Owned(View()) && sockets == map[] && old(freed) <= freed
    {
      hide Owned;
      var fd := 0;
      while fd < MAX_SOCKET_NUMBER
        invariant 0 <= fd <= MAX_SOCKET_NUMBER && Owned(View()) && old(freed) <= freed
        invariant forall g: Fd :: g in sockets ==> fd <= g
      {
        if fd in sockets {
          DropEntry(fd);
        }
        fd := fd + 1;
      }
      assert sockets == map[];
    }

    /** Frees what is left in the queue. */
    method DeleteQueue()
      requires Owned(View())
      modifies this`mq, this`freed, this`place
      ensures Owned(View()) && mq == [] && old(freed) <= freed
    {
      hide Owned;
      while mq != []
        invariant Owned(View()) && old(freed) <= freed
        decreases |mq|
      {
        ghost var h := View();
        freed := freed + [mq[0].id];
        place := place[mq[0].id := Freed];
        mq := mq[1..];
        LeaveQueue(h, View(), Freed);
      }
    }

    /** Shutdown, with the worker between messages: afterwards every allocation has been freed exactly once. */
    method Shutdown()
      requires Owned(View()) && worker == None
      modifies this`sockets, this`mq, this`freed, this`place, this`history
      ensures DistinctIds(freed) && forall id: nat :: id in freed <==> id < next
      ensures old(freed) <= freed
    {
      DeleteSockets();
      DeleteQueue();
      forall id: nat ensures id in freed <==> id < next {
        if id < next {
          assert PlacedRight(View(), id);
        }
      }
    }
  }

  datatype Act =
    | Batch(events: seq<PollEvent>)
    | Connect(fd: Fd, kind: SocketKind)
    | Take
    | Free

  /** Both threads: the core, what the worker holds, and all it has taken. */
  datatype Both = Both(core: Core, worker: Option<Item>, taken: seq<Item>)

  function Acted(p: Both, act: Act): Both {
    var c := p.core;
    match act
    case Batch(events) => p.(core := HandledAll(c, events))
    case Connect(fd, kind) =>
      if fd in c.sockets || kind.Connection? then p else p.(core := Added(c, fd, kind))
    case Take =>
      if p.worker.Some? || c.mq == [] then p
      else Both(c.(mq := c.mq[1..]), Some(c.mq[0]), p.taken + [c.mq[0]])
    case Free =>
      if p.worker.None? then p else p.(core := c.(freed := c.freed + [p.worker.value.id]), worker := None)
  }

  function ActedAll(capacity: nat, max: nat, acts: seq<Act>): Both {
    if acts == [] then Both(Core(capacity, max, map[], [], [], 0, [], []), None, [])
    else Acted(ActedAll(capacity, max, acts[..|acts| - 1]), acts[|acts| - 1])
  }

  /**
   Every run. At its end every descriptor's attempts are its lifetimes one after the other,
   each carrying the frames of its own stream; the worker has taken the accepted messages in
   order; and once shut down nothing has leaked and nothing was freed twice.
   */
  method Session(capacity: nat, max: nat, acts: seq<Act>) returns (io: IoThread, ghost end: Both)
    ensures end == ActedAll(capacity, max, acts)
    ensures Shaped(max, end.core.sockets, end.core.history, end.core.attempts)
    ensures AcceptedItems(end.core.attempts) == end.taken + end.core.mq && |end.core.mq| <= capacity
    ensures io.next == end.core.next && end.core.freed <= io.freed
    ensures DistinctIds(io.freed) && forall id: nat :: id in io.freed <==> id < io.next
  {
    io := new IoThread(capacity, max);
    hide Owned, Shaped, Acted;
    var i := 0;
    while i < |acts|
      invariant 0 <= i <= |acts| && fresh(io) && io.Inv() && io.capacity == capacity && io.max == max
      invariant Both(io.State(), io.worker, io.taken) == ActedAll(capacity, max, acts[..i])
    {
      assert acts[..i + 1][..i] == acts[..i];
      io.Perform(acts[i]);
      i := i + 1;
    }
    assert acts[..i] == acts;
    end := Both(io.State(), io.worker, io.taken);
    if io.worker.Some? {
      io.WorkerFrees();
    }
    io.Shutdown();
  }

  function ProjectItems(items: seq<Item>, fd: Fd): seq<Sent> {
    if items == [] then []
    else ProjectItems(items[..|items| - 1], fd)
         + (var m := items[|items| - 1]; if m.fd == fd then [Sent(m.kind, m.data)] else [])
  }

  /** While no push fails, the queue itself carries the lifetimes. */
  lemma {:induction false} NothingDropped(attempts: seq<Attempt>, fd: Fd)
    requires forall i :: 0 <= i < |attempts| ==> attempts[i].ok
    ensures |AcceptedItems(attempts)| == |attempts|
    ensures ProjectItems(AcceptedItems(attempts), fd) == Projection(attempts, fd)
  {
    if attempts != [] {
      var n := |attempts| - 1;
      NothingDropped(attempts[..n], fd);
      var items := AcceptedItems(attempts);
      assert items[..|items| - 1] == AcceptedItems(attempts[..n]);
    }
  }
}
