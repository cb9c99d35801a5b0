/**
 What every act of a run does to every descriptor, told by its lifetimes and its entry in the
 table, for whatever came before.
 */
module IoEffects {
  import opened MessageQueues
  import opened Frames
  import opened Sockets
  import opened IoThreads

  ghost predicate Sane(c: Core) {
    Shaped(c.max, c.sockets, c.history, c.attempts) && |c.mq| <= c.capacity
  }

  // ----- what can happen to a descriptor

  /** Neither its entry, nor its lifetimes, nor what it has sent has changed. */
  ghost predicate Untouched(c: Core, c': Core, g: Fd) {
    && (g in c.sockets <==> g in c'.sockets) && (g in c.sockets ==> c'.sockets[g] == c.sockets[g])
    && Lifetimes(c'.history, g) == Lifetimes(c.history, g)
    && Projection(c'.attempts, g) == Projection(c.attempts, g)
  }

  ghost predicate OthersUntouched(c: Core, c': Core, fd: Fd) {
    && c'.capacity == c.capacity && c'.max == c.max
    && forall g: Fd :: g != fd ==> Untouched(c, c', g)
  }

  /** The open lifetime has received `got` and goes on, or ends with it. */
  ghost predicate Received(c: Core, c': Core, fd: Fd, got: seq<byte>, open: bool) {
    var ls := Lifetimes(c.history, fd);
    && ls != [] && !ls[|ls| - 1].ended
    && Lifetimes(c'.history, fd) == ls[|ls| - 1 := Life(ls[|ls| - 1].kind, ls[|ls| - 1].stream + got, !open)]
    && (fd in c'.sockets <==> open)
    && (open && fd in c.sockets ==> c'.sockets[fd].kind == c.sockets[fd].kind)
  }

  /** A new lifetime has begun, with nothing received yet. */
  ghost predicate Opened(c: Core, c': Core, fd: Fd, kind: SocketKind) {
    && fd !in c.sockets && fd in c'.sockets && c'.sockets[fd] == Entry(kind, None, [])
    && Lifetimes(c'.history, fd) == Lifetimes(c.history, fd) + [Life(kind, [], false)]
  }

  lemma HistoryUntouched(c: Core, h: Happening, a: Attempt, g: Fd)
    requires h.fd != g && a.item.fd != g
    ensures Lifetimes(c.history + [h], g) == Lifetimes(c.history, g)
    ensures Projection(c.attempts + [a], g) == Projection(c.attempts, g)
  {
    LifetimesAppend(c.history, h, g);
    ProjectionAppend(c.attempts, a, g);
  }

  // ----- closing

  /** One loss is sent, and what the socket held is freed. */
  ghost predicate LossReported(c: Core, c': Core, fd: Fd)
    requires fd in c.sockets
  {
    var loss := Attempt(Item(c.next, fd, Lost, []), |c.mq| < c.capacity);
    && c'.attempts == c.attempts + [loss] && c'.next == c.next + 1
    && c'.mq == (if loss.ok then c.mq + [loss.item] else c.mq)
    && c'.freed == c.freed + (if c.sockets[fd].reading.Some? then [c.sockets[fd].reading.value] else [])
                   + (if loss.ok then [] else [loss.item.id])
  }

  lemma RemovedMeans(c: Core, fd: Fd)
    requires ShapedBut(c.max, c.sockets, c.history, c.attempts, fd) && Lived(c.max, c.history, c.attempts, fd)
    requires Alive(c.history, fd) && fd in c.sockets && |c.mq| <= c.capacity
    ensures var c' := Removed(c, fd);
            && Sane(c') && OthersUntouched(c, c', fd) && Received(c, c', fd, [], false) && LossReported(c, c', fd)
  {
    var a := Attempt(Item(c.next, fd, Lost, []), |c.mq| < c.capacity);
    DeathShapes(c.max, c.sockets, c.history, c.attempts, fd, a);
    hide Shaped, ShapedBut, Lived, Projection, Lifetimes;
    var c' := Removed(c, fd);
    LifetimesAppend(c.history, Died(fd), fd);
    var ls := Lifetimes(c.history, fd);
    assert ls[|ls| - 1].stream + [] == ls[|ls| - 1].stream;
    forall g: Fd | g != fd ensures Untouched(c, c', g) {
      HistoryUntouched(c, Died(fd), a, g);
    }
    assert c.sockets - {fd} == c'.sockets;
  }

  lemma SaneRemovable(c: Core, fd: Fd)
    requires Sane(c) && fd in c.sockets
    ensures ShapedBut(c.max, c.sockets, c.history, c.attempts, fd) && Lived(c.max, c.history, c.attempts, fd)
    ensures Alive(c.history, fd)
  {
    assert ShapedAt(c.max, c.sockets, c.history, c.attempts, fd);
  }

  // ----- opening

  lemma AddedMeans(c: Core, fd: Fd, kind: SocketKind)
    requires Sane(c) && fd !in c.sockets && !kind.Connection?
    ensures var c' := Added(c, fd, kind);
            Sane(c') && OthersUntouched(c, c', fd) && Opened(c, c', fd, kind) && c'.attempts == c.attempts && c'.mq == c.mq
  {
    hide Shaped, Projection, Lifetimes;
    var a := Attempt(Item(0, fd, Establish, []), true);
    BirthShapes(c.max, c.sockets, c.history, c.attempts, fd, kind, a);
    LifetimesAppend(c.history, Born(fd, kind), fd);
    forall g: Fd | g != fd ensures Untouched(c, Added(c, fd, kind), g) {
      HistoryUntouched(c, Born(fd, kind), a, g);
    }
  }

  lemma AnnouncedKeeps(c: Core, fd: Fd, kind: Kind)
    requires |c.mq| <= c.capacity
    ensures var c' := Announced(c, fd, kind);
            && c'.capacity == c.capacity && c'.max == c.max && c'.sockets == c.sockets && c'.history == c.history
            && c'.attempts == c.attempts + [Attempt(Item(c.next, fd, kind, []), |c.mq| < c.capacity)] && |c'.mq| <= c.capacity
  {
  }

  lemma JoinedOpens(c: Core, fd: Fd)
    requires Sane(c) && fd !in c.sockets
    ensures var c' := Announced(Added(c, fd, Connection), fd, Establish);
            && Sane(c') && OthersUntouched(c, c', fd) && Opened(c, c', fd, Connection)
            && Projection(c'.attempts, fd) == Projection(c.attempts, fd) + [Sent(Establish, [])]
  {
    hide Shaped, Projection, Lifetimes, Announced;
    var t := Attempt(Item(c.next, fd, Establish, []), |c.mq| < c.capacity);
    AnnouncedKeeps(Added(c, fd, Connection), fd, Establish);
    BirthShapes(c.max, c.sockets, c.history, c.attempts, fd, Connection, t);
    LifetimesAppend(c.history, Born(fd, Connection), fd);
    ProjectionAppend(c.attempts, t, fd);
    forall g: Fd | g != fd ensures Untouched(c, Announced(Added(c, fd, Connection), fd, Establish), g) {
      HistoryUntouched(c, Born(fd, Connection), t, g);
    }
  }

  /** An establishment is sent for it. */
  lemma JoinedMeans(c: Core, a: Accepted)
    requires Sane(c)
    ensures var c' := Joined(c, a);
            && Sane(c')
            && if a.registered && a.fd !in c.sockets
               then OthersUntouched(c, c', a.fd) && Opened(c, c', a.fd, Connection)
                    && Projection(c'.attempts, a.fd) == Projection(c.attempts, a.fd) + [Sent(Establish, [])]
               else c' == c
  {
    hide Sane, OthersUntouched, Opened, Projection, Announced, Added;
    if a.registered && a.fd !in c.sockets {
      JoinedOpens(c, a.fd);
    }
  }

  /** Every registered connection on a free descriptor opens one lifetime, and nothing else happens. */
  ghost predicate AcceptEffect(c: Core, c': Core, accepts: seq<Accepted>) {
    && c'.capacity == c.capacity && c'.max == c.max
    && forall g: Fd :: AcceptedAt(c, c', accepts, g)
  }

  ghost predicate AcceptedAt(c: Core, c': Core, accepts: seq<Accepted>, g: Fd) {
    if g !in c.sockets && Accepted(g, true) in accepts
    then Opened(c, c', g, Connection)
         && Projection(c'.attempts, g) == Projection(c.attempts, g) + [Sent(Establish, [])]
    else Untouched(c, c', g)
  }

  lemma JoinedStep(c: Core, c1: Core, c2: Core, a: Accepted, more: seq<Accepted>, g: Fd)
    requires if a.registered && a.fd !in c.sockets
             then OthersUntouched(c, c1, a.fd) && Opened(c, c1, a.fd, Connection)
                  && Projection(c1.attempts, a.fd) == Projection(c.attempts, a.fd) + [Sent(Establish, [])]
             else c1 == c
    requires AcceptedAt(c1, c2, more, g)
    ensures AcceptedAt(c, c2, [a] + more, g)
  {
    hide Projection, Lifetimes;
    assert Accepted(g, true) in [a] + more <==> a == Accepted(g, true) || Accepted(g, true) in more;
    if g != a.fd && a.registered && a.fd !in c.sockets {
      assert Untouched(c, c1, g);
    }
  }

  lemma {:induction false} JoinedAllMeans(c: Core, accepts: seq<Accepted>)
    requires Sane(c)
    ensures Sane(JoinedAll(c, accepts)) && AcceptEffect(c, JoinedAll(c, accepts), accepts)
    decreases |accepts|
  {
    if accepts == [] {
    } else {
      hide Sane, Opened, Untouched, Joined, Projection;
      var a, more := accepts[0], accepts[1..];
      assert accepts == [a] + more;
      var c1, c2 := Joined(c, a), JoinedAll(c, accepts);
      JoinedMeans(c, a);
      JoinedAllMeans(c1, more);
      forall g: Fd ensures AcceptedAt(c, c2, accepts, g) {
        assert AcceptedAt(c1, c2, more, g);
        JoinedStep(c, c1, c2, a, more, g);
      }
      if c1 != c {
        SameLimits(c, c1, a.fd);
      }
    }
  }

  lemma SameLimits(c: Core, c': Core, fd: Fd)
    requires OthersUntouched(c, c', fd)
    ensures c'.capacity == c.capacity && c'.max == c.max
  {
  }

  // ----- receiving

  lemma OthersThen(c: Core, c1: Core, c2: Core, fd: Fd)
    requires OthersUntouched(c, c1, fd) && OthersUntouched(c1, c2, fd)
    ensures OthersUntouched(c, c2, fd)
  {
    hide Lifetimes, Projection;
    forall g: Fd | g != fd ensures Untouched(c, c2, g) {
      assert Untouched(c, c1, g) && Untouched(c1, c2, g);
    }
  }

  lemma ReceivedThen(c: Core, c1: Core, c2: Core, fd: Fd, a: seq<byte>, b: seq<byte>, open: bool)
    requires fd in c.sockets && Received(c, c1, fd, a, true) && Received(c1, c2, fd, b, open)
    ensures Received(c, c2, fd, a + b, open)
  {
    hide Lifetimes;
    var ls, ls1 := Lifetimes(c.history, fd), Lifetimes(c1.history, fd);
    assert ls[|ls| - 1].stream + a + b == ls[|ls| - 1].stream + (a + b);
    var l := Life(ls[|ls| - 1].kind, ls[|ls| - 1].stream + (a + b), !open);
    assert ls1[|ls1| - 1 := l] == ls[|ls| - 1 := l];
  }

  /** Only the entry of `fd` has changed. */
  lemma EntryChanged(c: Core, c': Core, fd: Fd, e: Entry)
    requires fd in c.sockets && c'.sockets == c.sockets[fd := e] && c'.history == c.history
    requires e.kind == c.sockets[fd].kind && Alive(c.history, fd) && c'.capacity == c.capacity && c'.max == c.max
    requires c'.attempts == c.attempts || exists t :: c'.attempts == c.attempts + [t] && t.item.fd == fd
    ensures OthersUntouched(c, c', fd) && Received(c, c', fd, [], true)
  {
    hide Lifetimes, Projection;
    var ls := Lifetimes(c.history, fd);
    assert ls[|ls| - 1].stream + [] == ls[|ls| - 1].stream;
    assert ls[|ls| - 1 := ls[|ls| - 1]] == ls;
    forall g: Fd | g != fd ensures Untouched(c, c', g) {
      if c'.attempts != c.attempts {
        var t :| c'.attempts == c.attempts + [t] && t.item.fd == fd;
        ProjectionAppend(c.attempts, t, g);
      }
    }
  }

  lemma StoredMeans(c: Core, fd: Fd, b: byte)
    requires fd in c.sockets && Alive(c.history, fd)
    ensures var c1 := Stored(c, fd, b);
            OthersUntouched(c, c1, fd) && Received(c, c1, fd, [b], true) && Alive(c1.history, fd)
  {
    hide Lifetimes, Projection;
    var c1 := Stored(c, fd, b);
    LifetimesAppend(c.history, Got(fd, b), fd);
    forall g: Fd | g != fd ensures Untouched(c, c1, g) {
      LifetimesAppend(c.history, Got(fd, b), g);
    }
  }

  lemma RemovedAfter(c: Core, c1: Core, fd: Fd, got: seq<byte>)
    requires fd in c.sockets && fd in c1.sockets && OthersUntouched(c, c1, fd) && Received(c, c1, fd, got, true)
    requires ShapedBut(c1.max, c1.sockets, c1.history, c1.attempts, fd) && Lived(c1.max, c1.history, c1.attempts, fd)
    requires Alive(c1.history, fd) && |c1.mq| <= c1.capacity
    ensures var c2 := Removed(c1, fd);
            Sane(c2) && OthersUntouched(c, c2, fd) && Received(c, c2, fd, got, false)
  {
    hide Sane, ShapedBut, Lived, Alive, OthersUntouched, Received, Removed;
    RemovedMeans(c1, fd);
    OthersThen(c, c1, Removed(c1, fd), fd);
    ReceivedThen(c, c1, Removed(c1, fd), fd, got, [], false);
    assert got + [] == got;
  }

  lemma ChangedAfter(c: Core, c1: Core, c2: Core, fd: Fd, got: seq<byte>, e: Entry)
    requires fd in c.sockets && fd in c1.sockets && OthersUntouched(c, c1, fd) && Received(c, c1, fd, got, true)
    requires c2.sockets == c1.sockets[fd := e] && c2.history == c1.history
    requires e.kind == c1.sockets[fd].kind && Alive(c1.history, fd) && c2.capacity == c1.capacity && c2.max == c1.max
    requires c2.attempts == c1.attempts || exists t :: c2.attempts == c1.attempts + [t] && t.item.fd == fd
    ensures OthersUntouched(c, c2, fd) && Received(c, c2, fd, got, true)
  {
    hide Alive, OthersUntouched, Received;
    EntryChanged(c1, c2, fd, e);
    OthersThen(c, c1, c2, fd);
    ReceivedThen(c, c1, c2, fd, got, [], true);
    assert got + [] == got;
  }

  /** A byte that is read is received, whether or not the connection survives it. */
  lemma ByteMeans(c: Core, fd: Fd, b: byte)
    requires Connected(c, fd)
    ensures var c' := ByteRead(c, fd, b);
            Sane(c') && OthersUntouched(c, c', fd) && Received(c, c', fd, [b], fd in c'.sockets)
  {
    hide Shaped, ShapedBut, Lived, Alive, OthersUntouched, Received, Removed, LittleEndian;
    ByteShapes(c, fd, b);
    StoredMeans(c, fd, b);
    var c1 := Stored(c, fd, b);
    var e := c1.sockets[fd];
    if |e.partial| == LENGTH_SIZE {
      if LengthAllowed(c.max, FrameLength(e.partial)) {
        ChangedAfter(c, c1, Begun(c1, fd), fd, [b], e.(reading := Some(c1.next)));
      } else {
        RemovedAfter(c, c1, fd, [b]);
        RemovedIsGone(c1, fd);
      }
    } else if |e.partial| > LENGTH_SIZE && |e.partial| == FrameLength(e.partial) {
      FinishedMeans(c, c1, fd, [b]);
    }
  }

  lemma RemovedIsGone(c: Core, fd: Fd)
    ensures fd !in Removed(c, fd).sockets
  {
  }

  lemma FinishedMeans(c: Core, c1: Core, fd: Fd, got: seq<byte>)
    requires fd in c.sockets && fd in c1.sockets && c1.sockets[fd].reading.Some? && FinishShapes(c1, fd)
    requires OthersUntouched(c, c1, fd) && Received(c, c1, fd, got, true) && Alive(c1.history, fd) && |c1.mq| <= c1.capacity
    ensures var c' := Finished(c1, fd);
            Sane(c') && OthersUntouched(c, c', fd) && Received(c, c', fd, got, fd in c'.sockets)
  {
    hide Shaped, ShapedBut, Lived, Alive, OthersUntouched, Received, Removed;
    var e, ok := c1.sockets[fd], |c1.mq| < c1.capacity;
    var t := Attempt(Item(e.reading.value, fd, Package, e.partial), ok);
    var c2 := c1.(attempts := c1.attempts + [t]);
    if ok {
      ChangedAfter(c, c1, Finished(c1, fd), fd, got, e.(reading := None, partial := []));
    } else {
      assert c2.sockets == c1.sockets[fd := e];
      ChangedAfter(c, c1, c2, fd, got, e);
      RemovedAfter(c, c2, fd, got);
      RemovedIsGone(c2, fd);
    }
  }

  /** The stream has come to a forbidden length, or to more frames than there is room for. */
  ghost predicate Breaks(max: nat, room: int, s: seq<byte>) {
    Parse(max, s).bad || |Parse(max, s).frames| > room
  }

  /** How many frames the stream of a connection may have in all until the queue is full. */
  ghost function Room(c: Core, fd: Fd): int
    requires Alive(c.history, fd)
  {
    |Parse(c.max, StreamOf(c.history, fd)).frames| + c.capacity - |c.mq|
  }

  /** Reading stops after `k` bytes: at the first break, or at the end. */
  ghost predicate StopsAfter(max: nat, room: int, s: seq<byte>, received: seq<byte>, k: nat) {
    && k <= |received|
    && (forall j :: 0 < j < k ==> !Breaks(max, room, s + received[..j]))
    && (k == |received| || (k > 0 && Breaks(max, room, s + received[..k])))
  }

  lemma ByteBreaks(c: Core, fd: Fd, b: byte)
    requires Connected(c, fd)
    ensures var c', s := ByteRead(c, fd, b), StreamOf(c.history, fd);
            && (fd in c'.sockets <==> !Breaks(c.max, Room(c, fd), s + [b]))
            && (fd in c'.sockets ==> Connected(c', fd) && StreamOf(c'.history, fd) == s + [b] && Room(c', fd) == Room(c, fd)
                                     && c'.max == c.max)
  {
    hide Connected, ByteRead, Parse, StreamOf;
    ByteSurvives(c, fd, b);
  }

  /** A poll reads byte after byte until one breaks the connection, or to the end. */
  lemma {:induction false} ReadMeans(c: Core, fd: Fd, received: seq<byte>, lost: bool) returns (k: nat)
    requires Connected(c, fd)
    ensures var c' := ReadOn(c, fd, received, lost);
            && Sane(c') && OthersUntouched(c, c', fd)
            && StopsAfter(c.max, Room(c, fd), StreamOf(c.history, fd), received, k)
            && Received(c, c', fd, received[..k], fd in c'.sockets)
    decreases |received|
  {
    hide Shaped, Alive, StreamOf, OthersUntouched, Received, ByteRead, Removed, Room, Breaks;
    var s, room := StreamOf(c.history, fd), Room(c, fd);
    if received == [] {
      k := 0;
      assert received[..0] == [];
      NothingRead(c, fd);
      if lost || 0 < |c.sockets[fd].partial| < LENGTH_SIZE {
        SaneRemovable(c, fd);
        RemovedAfter(c, c, fd, []);
        RemovedIsGone(c, fd);
      }
    } else {
      var b, more := received[0], received[1..];
      ByteMeans(c, fd, b);
      ByteBreaks(c, fd, b);
      var c1 := ByteRead(c, fd, b);
      if fd in c1.sockets {
        var j := ReadMeans(c1, fd, more, lost);
        k := j + 1;
        assert received[..k] == [b] + more[..j];
        OthersThen(c, c1, ReadOn(c1, fd, more, lost), fd);
        ReceivedThen(c, c1, ReadOn(c1, fd, more, lost), fd, [b], more[..j], fd in ReadOn(c1, fd, more, lost).sockets);
        StopsLater(c.max, room, s, b, more, j);
        assert received == [b] + more;
      } else {
        k := 1;
        assert received[..1] == [b];
      }
    }
  }

  lemma NothingRead(c: Core, fd: Fd)
    requires fd in c.sockets && Alive(c.history, fd)
    ensures OthersUntouched(c, c, fd) && Received(c, c, fd, [], true)
  {
    hide Lifetimes;
    var ls := Lifetimes(c.history, fd);
    assert ls[|ls| - 1].stream + [] == ls[|ls| - 1].stream;
    assert ls[|ls| - 1 := ls[|ls| - 1]] == ls;
  }

  lemma StopsLater(max: nat, room: int, s: seq<byte>, b: byte, more: seq<byte>, j: nat)
    requires !Breaks(max, room, s + [b]) && StopsAfter(max, room, s + [b], more, j)
    ensures StopsAfter(max, room, s, [b] + more, j + 1)
  {
    hide Breaks;
    var received := [b] + more;
    forall i | 0 < i <= |received| ensures s + received[..i] == s + [b] + more[..i - 1] {
      assert received[..i] == [b] + more[..i - 1];
    }
    assert more[..0] == [] && s + [b] + [] == s + [b];
  }

  // ----- one poll event

  /** The read does not end the connection. */
  ghost predicate ReadHolds(c: Core, fd: Fd, received: seq<byte>, lost: bool)
    requires Alive(c.history, fd)
  {
    var s := StreamOf(c.history, fd) + received;
    !lost && OutsidePrefix(c.max, s) && !Breaks(c.max, Room(c, fd), s)
  }

  ghost predicate Effect(c: Core, ev: PollEvent, c': Core) {
    match ev
    case Hangup(fd) =>
      if fd in c.sockets
      then OthersUntouched(c, c', fd) && Received(c, c', fd, [], false) && LossReported(c, c', fd)
      else c' == c
    case Ready(fd, readable, accepts, received, lost, writable, written) =>
      if fd !in c.sockets then c' == c
      else if c.sockets[fd].kind.Server? then (if readable then AcceptEffect(c, c', accepts) else c' == c)
      else
        && Alive(c.history, fd) && OthersUntouched(c, c', fd)
        && (fd in c'.sockets <==> (readable ==> ReadHolds(c, fd, received, lost)) && (writable ==> written))
        && exists k: nat :: ReadUpTo(c, fd, if readable then received else [], k)
                       && Received(c, c', fd, received[..k], fd in c'.sockets)
  }

  ghost predicate ReadUpTo(c: Core, fd: Fd, received: seq<byte>, k: nat)
    requires Alive(c.history, fd)
  {
    StopsAfter(c.max, Room(c, fd), StreamOf(c.history, fd), received, k)
  }

  lemma ConnectedHere(c: Core, fd: Fd)
    requires Sane(c) && fd in c.sockets && !c.sockets[fd].kind.Server?
    ensures Connected(c, fd)
  {
    assert ShapedAt(c.max, c.sockets, c.history, c.attempts, fd);
  }

  lemma ReadKept(c: Core, fd: Fd, received: seq<byte>, lost: bool)
    requires Connected(c, fd)
    ensures fd in ReadOn(c, fd, received, lost).sockets <==> ReadHolds(c, fd, received, lost)
  {
    hide Connected, ReadOn, Parse, StreamOf;
    ReadSurvives(c, fd, received, lost);
  }

  /** The read part of an event on a connected socket. */
  lemma ReadPart(c: Core, fd: Fd, readable: bool, received: seq<byte>, lost: bool) returns (k: nat)
    requires Connected(c, fd)
    ensures var c1 := if readable then ReadOn(c, fd, received, lost) else c;
            && Sane(c1) && OthersUntouched(c, c1, fd) && ReadUpTo(c, fd, if readable then received else [], k) && k <= |received|
            && Received(c, c1, fd, received[..k], fd in c1.sockets)
            && (fd in c1.sockets <==> (readable ==> ReadHolds(c, fd, received, lost)))
  {
    hide Shaped, Alive, OthersUntouched, Received, ReadOn, ReadHolds, Room, StreamOf, Breaks;
    if readable {
      k := ReadMeans(c, fd, received, lost);
      ReadKept(c, fd, received, lost);
    } else {
      k := 0;
      assert received[..0] == [];
      NothingRead(c, fd);
    }
  }

  lemma RemovedOfSane(c: Core, fd: Fd)
    requires Sane(c) && fd in c.sockets
    ensures var c' := Removed(c, fd);
            && Sane(c') && OthersUntouched(c, c', fd) && Received(c, c', fd, [], false) && LossReported(c, c', fd)
  {
    hide OthersUntouched, Received, LossReported, Removed;
    SaneRemovable(c, fd);
    RemovedMeans(c, fd);
  }

  lemma RemovedInTheEnd(c: Core, c1: Core, fd: Fd, got: seq<byte>)
    requires Sane(c1) && fd in c.sockets && fd in c1.sockets && OthersUntouched(c, c1, fd) && Received(c, c1, fd, got, true)
    ensures var c2 := Removed(c1, fd);
            Sane(c2) && OthersUntouched(c, c2, fd) && Received(c, c2, fd, got, false) && fd !in c2.sockets
  {
    hide OthersUntouched, Received, Removed;
    SaneRemovable(c1, fd);
    RemovedAfter(c, c1, fd, got);
    RemovedIsGone(c1, fd);
  }

  /** Accepting does not change the listening socket. */
  lemma ServerStays(c: Core, accepts: seq<Accepted>, fd: Fd)
    requires Sane(c) && fd in c.sockets
    ensures var c' := JoinedAll(c, accepts); fd in c'.sockets && c'.sockets[fd] == c.sockets[fd]
  {
    JoinedAllMeans(c, accepts);
    assert AcceptedAt(c, JoinedAll(c, accepts), accepts, fd);
  }

  lemma HandledMeans(c: Core, ev: PollEvent)
    requires Sane(c)
    ensures Sane(Handled(c, ev)) && Effect(c, ev, Handled(c, ev))
  {
    match ev
    case Hangup(fd) =>
      if fd in c.sockets {
        hide Sane, OthersUntouched, Received, LossReported, Removed;
        SaneRemovable(c, fd);
        RemovedOfSane(c, fd);
      }
    case Ready(fd, readable, accepts, received, lost, writable, written) =>
      if fd in c.sockets {
        if c.sockets[fd].kind.Server? {
          hide Sane, AcceptEffect;
          JoinedAllMeans(c, accepts);
          ServerStays(c, accepts, fd);
        } else {
          hide Sane, OthersUntouched, Received, ReadHolds, ReadUpTo, ReadOn, Removed;
          ConnectedHere(c, fd);
          var k := ReadPart(c, fd, readable, received, lost);
          var c1 := if readable then ReadOn(c, fd, received, lost) else c;
          if writable && !written && fd in c1.sockets {
            RemovedInTheEnd(c, c1, fd, received[..k]);
          }
        }
      }
  }

  // ----- a push fails only when the queue is full

  /** Messages are only added to the queue, as many as were pushed, until it is full. */
  predicate Fills(c: Core, c': Core) {
    && c'.capacity == c.capacity && c.mq <= c'.mq && c.attempts <= c'.attempts
    && var n := |c.mq| + |c'.attempts| - |c.attempts|;
       |c'.mq| == if n <= c.capacity then n else c.capacity
  }

  lemma FillsThen(c: Core, c1: Core, c2: Core)
    requires |c.mq| <= c.capacity && Fills(c, c1) && Fills(c1, c2)
    ensures Fills(c, c2)
  {
  }

  lemma RemovedFills(c: Core, fd: Fd)
    requires |c.mq| <= c.capacity
    ensures Fills(c, Removed(c, fd))
  {
  }

  lemma {:induction false} JoinedAllFills(c: Core, accepts: seq<Accepted>)
    requires |c.mq| <= c.capacity
    ensures Fills(c, JoinedAll(c, accepts))
    decreases |accepts|
  {
    if accepts != [] {
      var c1 := Joined(c, accepts[0]);
      assert Fills(c, c1);
      JoinedAllFills(c1, accepts[1..]);
      FillsThen(c, c1, JoinedAll(c1, accepts[1..]));
    }
  }

  lemma ByteFills(c: Core, fd: Fd, b: byte)
    requires |c.mq| <= c.capacity && fd in c.sockets
    ensures Fills(c, ByteRead(c, fd, b))
  {
    hide LittleEndian, Removed;
    var c1 := Stored(c, fd, b);
    var e := c1.sockets[fd];
    RemovedFills(c1, fd);
    if e.reading.Some? {
      var t := Attempt(Item(e.reading.value, fd, Package, e.partial), |c.mq| < c.capacity);
      var c2 := c1.(attempts := c1.attempts + [t]);
      if !t.ok {
        assert Fills(c, c2);
        RemovedFills(c2, fd);
        FillsThen(c, c2, Removed(c2, fd));
      }
    }
  }

  lemma {:induction false} ReadFills(c: Core, fd: Fd, received: seq<byte>, lost: bool)
    requires |c.mq| <= c.capacity
    ensures Fills(c, ReadOn(c, fd, received, lost))
    decreases |received|
  {
    hide Removed, ByteRead;
    RemovedFills(c, fd);
    if fd in c.sockets && received != [] {
      var c1 := ByteRead(c, fd, received[0]);
      ByteFills(c, fd, received[0]);
      ReadFills(c1, fd, received[1..], lost);
      FillsThen(c, c1, ReadOn(c1, fd, received[1..], lost));
    }
  }

  lemma HandledFills(c: Core, ev: PollEvent)
    requires |c.mq| <= c.capacity
    ensures Fills(c, Handled(c, ev))
  {
    hide Removed, ReadOn, JoinedAll;
    RemovedFills(c, ev.fd);
    if ev.Ready? {
      JoinedAllFills(c, ev.accepts);
      ReadFills(c, ev.fd, ev.received, ev.lost);
      var c1 := if ev.readable then ReadFrom(c, ev.fd, ev.accepts, ev.received, ev.lost) else c;
      assert Fills(c, c1);
      RemovedFills(c1, ev.fd);
      FillsThen(c, c1, Removed(c1, ev.fd));
    }
  }

  // ----- whole runs

  lemma {:induction false} HandledOneMore(c: Core, events: seq<PollEvent>, ev: PollEvent)
    ensures HandledAll(c, events + [ev]) == Handled(HandledAll(c, events), ev)
    decreases |events|
  {
    hide Handled;
    if events == [] {
      assert (events + [ev])[1..] == [] && (events + [ev])[0] == ev;
      assert HandledAll(Handled(c, ev), []) == Handled(c, ev);
    } else {
      assert (events + [ev])[1..] == events[1..] + [ev];
      HandledOneMore(Handled(c, events[0]), events[1..], ev);
    }
  }

  lemma {:induction false} HandledAllSane(c: Core, events: seq<PollEvent>)
    requires Sane(c)
    ensures Sane(HandledAll(c, events))
    decreases |events|
  {
    if events != [] {
      hide Sane, Handled, Effect;
      HandledMeans(c, events[0]);
      HandledAllSane(Handled(c, events[0]), events[1..]);
    }
  }

  lemma ActedOneMore(capacity: nat, max: nat, acts: seq<Act>, act: Act)
    ensures ActedAll(capacity, max, acts + [act]) == Acted(ActedAll(capacity, max, acts), act)
  {
    assert (acts + [act])[..|acts|] == acts;
  }

  lemma ActedSane(p: Both, act: Act)
    requires Sane(p.core)
    ensures Sane(Acted(p, act).core)
  {
    match act
    case Batch(events) => HandledAllSane(p.core, events);
    case Connect(fd, kind) =>
      if fd !in p.core.sockets && !kind.Connection? {
        AddedMeans(p.core, fd, kind);
      }
    case Take =>
    case Free =>
  }

  lemma {:induction false} AlwaysSane(capacity: nat, max: nat, acts: seq<Act>)
    ensures Sane(ActedAll(capacity, max, acts).core)
  {
    if acts != [] {
      hide Sane, Acted;
      AlwaysSane(capacity, max, acts[..|acts| - 1]);
      ActedSane(ActedAll(capacity, max, acts[..|acts| - 1]), acts[|acts| - 1]);
    }
  }

  /**
   In every run, whatever came before, each event of a batch has exactly its effect: a hang-up
   ends the open lifetime with one loss, a listening socket opens one lifetime for every
   registered connection, and a connected one receives byte after byte until it breaks.
   */
  lemma EventMeans(capacity: nat, max: nat, acts: seq<Act>, events: seq<PollEvent>, ev: PollEvent)
    ensures var p := ActedAll(capacity, max, acts + [Batch(events)]);
            var p' := ActedAll(capacity, max, acts + [Batch(events + [ev])]);
            Effect(p.core, ev, p'.core) && Fills(p.core, p'.core) && p'.worker == p.worker && p'.taken == p.taken
  {
    hide Shaped, Effect, Fills, Handled, HandledAll, ActedAll;
    ActedOneMore(capacity, max, acts, Batch(events));
    ActedOneMore(capacity, max, acts, Batch(events + [ev]));
    var c := ActedAll(capacity, max, acts).core;
    HandledOneMore(c, events, ev);
    AlwaysSane(capacity, max, acts + [Batch(events)]);
    HandledMeans(HandledAll(c, events), ev);
    HandledFills(HandledAll(c, events), ev);
  }

  /**
   The other acts: an empty batch changes nothing; a socket the worker makes opens one
   lifetime in silence; the worker takes the oldest message, one at a time, and frees it.
   */
  lemma ActMeans(capacity: nat, max: nat, acts: seq<Act>, act: Act)
    ensures var p, p' := ActedAll(capacity, max, acts), ActedAll(capacity, max, acts + [act]);
            match act
            case Batch(events) => events == [] ==> p' == p
            case Connect(fd, kind) =>
              if fd in p.core.sockets || kind.Connection? then p' == p
              else p'.worker == p.worker && p'.taken == p.taken && p'.core.mq == p.core.mq && p'.core.attempts == p.core.attempts
                   && OthersUntouched(p.core, p'.core, fd) && Opened(p.core, p'.core, fd, kind)
            case Take =>
              if p.worker.Some? || p.core.mq == [] then p' == p
              else p'.worker.Some? && p.core.mq == [p'.worker.value] + p'.core.mq && p'.taken == p.taken + [p'.worker.value]
                   && p'.core == p.core.(mq := p'.core.mq)
            case Free =>
              if p.worker.None? then p' == p
              else p'.worker.None? && p'.taken == p.taken && p'.core == p.core.(freed := p.core.freed + [p.worker.value.id])
  {
    var p := ActedAll(capacity, max, acts);
    ActedOneMore(capacity, max, acts, act);
    AlwaysSane(capacity, max, acts);
    hide ActedAll, Sane, Opened, OthersUntouched;
    if act.Connect? && act.fd !in p.core.sockets && !act.kind.Connection? {
      AddedMeans(p.core, act.fd, act.kind);
    }
  }
}
