/**
 Frame reassembly and resumable sending on one non-blocking socket.

 `recv` and `send` are oracles: a socket carries the results they are going to give, in
 order. A run that outlives its oracle finds no more data and no more room.
 */
module Sockets {
  import opened MessageQueues
  import opened Frames

  datatype Kind = Establish | Lost | Package

  /** `bytesize` is the read or write cursor into `buf`. */
  datatype Message = Message(fd: int, kind: Kind, buf: seq<byte>, bytesize: nat)

  /** `Data([])` is the peer closing the connection. */
  datatype Recv = Data(bytes: seq<byte>) | Interrupted | WouldBlock | Failed

  /** `Taken(0)` is the connection being lost. */
  datatype Send = Taken(n: nat) | SendInterrupted | SendWouldBlock | SendFailed

  function Stream(rs: seq<Recv>): seq<byte> {
    if rs == [] then [] else (if rs[0].Data? then rs[0].bytes else []) + Stream(rs[1..])
  }

  /** Bounds how often `recv` can still return. */
  function Weight(rs: seq<Recv>): nat {
    if rs == [] then 0 else 1 + (if rs[0].Data? then |rs[0].bytes| else 0) + Weight(rs[1..])
  }

  /** Nothing of a length prefix has been read, or all of it. */
  predicate OutsidePrefix(max: nat, seen: seq<byte>) {
    var n := |Parse(max, seen).rest|; n == 0 || n >= LENGTH_SIZE
  }

  /**
   The oracle never closes nor fails, and never blocks strictly inside a length prefix,
   `seen` being the stream so far. Running dry is blocking.
   */
  predicate Admissible(max: nat, seen: seq<byte>, rs: seq<Recv>)
    decreases |rs|
  {
    if rs == [] then OutsidePrefix(max, seen)
    else match rs[0]
      case Data(bytes) => bytes != [] && Admissible(max, seen + bytes, rs[1..])
      case Interrupted => Admissible(max, seen, rs[1..])
      case WouldBlock => OutsidePrefix(max, seen) && Admissible(max, seen, rs[1..])
      case Failed => false
  }

  /** A read of at most `n` bytes from a longer piece leaves the rest of the piece. */
  lemma AdmissibleSplit(max: nat, seen: seq<byte>, rs: seq<Recv>, n: nat)
    requires rs != [] && rs[0].Data? && 0 < n < |rs[0].bytes|
    ensures var rs' := [Data(rs[0].bytes[n..])] + rs[1..];
            && (Admissible(max, seen, rs) <==> Admissible(max, seen + rs[0].bytes[..n], rs'))
            && Stream(rs) == rs[0].bytes[..n] + Stream(rs')
            && Weight(rs') == Weight(rs) - n
  {
    hide OutsidePrefix;
    var b := rs[0].bytes;
    var rs' := [Data(b[n..])] + rs[1..];
    assert rs'[0] == Data(b[n..]) && rs'[1..] == rs[1..];
    assert b[..n] + b[n..] == b;
    assert seen + b[..n] + b[n..] == seen + b;
    assert Admissible(max, seen + b[..n], rs') == Admissible(max, seen + b, rs[1..]);
    assert Stream(rs') == b[n..] + Stream(rs[1..]);
  }

  /** As `Admissible`, except that the oracle may end anywhere: more of it is still to come. */
  predicate Smooth(max: nat, seen: seq<byte>, rs: seq<Recv>)
    decreases |rs|
  {
    rs == [] ||
    match rs[0]
    case Data(bytes) => bytes != [] && Smooth(max, seen + bytes, rs[1..])
    case Interrupted => Smooth(max, seen, rs[1..])
    case WouldBlock => OutsidePrefix(max, seen) && Smooth(max, seen, rs[1..])
    case Failed => false
  }

  lemma {:induction false} StreamAppend(a: seq<Recv>, b: seq<Recv>)
    ensures Stream(a + b) == Stream(a) + Stream(b)
  {
    if a == [] {
      assert a + b == b;
    } else {
      assert (a + b)[1..] == a[1..] + b;
      StreamAppend(a[1..], b);
    }
  }

  lemma {:induction false} SmoothAppend(max: nat, seen: seq<byte>, a: seq<Recv>, b: seq<Recv>)
    ensures Smooth(max, seen, a + b) <==> Smooth(max, seen, a) && Smooth(max, seen + Stream(a), b)
    decreases |a|
  {
    hide OutsidePrefix;
    if a == [] {
      assert a + b == b && seen + Stream(a) == seen;
    } else {
      assert (a + b)[1..] == a[1..] + b;
      var seen' := if a[0].Data? then seen + a[0].bytes else seen;
      assert seen' + Stream(a[1..]) == seen + Stream(a);
      SmoothAppend(max, seen', a[1..], b);
    }
  }

  lemma {:induction false} AdmissibleIsSmooth(max: nat, seen: seq<byte>, rs: seq<Recv>)
    ensures Admissible(max, seen, rs) <==> Smooth(max, seen, rs) && OutsidePrefix(max, seen + Stream(rs))
    decreases |rs|
  {
    hide OutsidePrefix;
    if rs == [] {
      assert seen + Stream(rs) == seen;
    } else {
      var seen' := if rs[0].Data? then seen + rs[0].bytes else seen;
      assert seen' + Stream(rs[1..]) == seen + Stream(rs);
      AdmissibleIsSmooth(max, seen', rs[1..]);
    }
  }

  /** Ending in a block, an oracle is admissible as soon as it is smooth. */
  lemma SealedIsSmooth(max: nat, seen: seq<byte>, rs: seq<Recv>)
    requires rs != [] && Sealed(rs)
    ensures Admissible(max, seen, rs) <==> Smooth(max, seen, rs)
  {
    hide OutsidePrefix, Admissible;
    AdmissibleIsSmooth(max, seen, rs);
    var a := rs[..|rs| - 1];
    assert rs == a + [WouldBlock];
    SmoothAppend(max, seen, a, [WouldBlock]);
    StreamAppend(a, [WouldBlock]);
    assert Stream([WouldBlock]) == [];
    assert seen + Stream(a) == seen + Stream(rs);
  }

  /**
   The same bytes of a frame are readable in one piece and an error in two, if the cut falls
   inside the length prefix.
   */
  lemma SplitPrefixIsFatal(max: nat, f: seq<byte>, k: nat)
    requires IsFrame(max, f) && 0 < k < LENGTH_SIZE
    ensures var whole, split := [Data(f)], [Data(f[..k]), WouldBlock, Data(f[k..])];
            Stream(whole) == Stream(split) == f && Admissible(max, [], whole) && !Admissible(max, [], split)
  {
    assert Parse(max, []) == Parsed([], [], false);
    hide Parse, LittleEndian;
    ParseBoundary(max, [], [], f);
    ParseBoundary(max, [], [], f[..k]);
    var whole, split := [Data(f)], [Data(f[..k]), WouldBlock, Data(f[k..])];
    assert [] + f == f && [] + f[..k] == f[..k];
    assert whole[1..] == [];
    assert split[1..] == [WouldBlock, Data(f[k..])] && split[1..][1..] == [Data(f[k..])] && split[1..][1..][1..] == [];
    assert Stream([Data(f[k..])]) == f[k..] + Stream([]);
    assert f[..k] + f[k..] == f;
  }

  /** An oracle that ends in a block has nothing to read beyond it. */
  predicate Sealed(rs: seq<Recv>) {
    rs == [] || rs[|rs| - 1] == WouldBlock
  }

  /** How many blocks an oracle still holds. */
  function Blocks(rs: seq<Recv>): nat {
    if rs == [] then 0 else (if rs[0] == WouldBlock then 1 else 0) + Blocks(rs[1..])
  }

  lemma {:induction false} BlocksAppend(a: seq<Recv>, b: seq<Recv>)
    ensures Blocks(a + b) == Blocks(a) + Blocks(b)
  {
    if a == [] {
      assert a + b == b;
    } else {
      assert (a + b)[1..] == a[1..] + b;
      BlocksAppend(a[1..], b);
    }
  }

  lemma {:induction false} SealedHasBlocks(rs: seq<Recv>)
    requires rs != [] && Sealed(rs)
    ensures Blocks(rs) > 0
  {
    if |rs| > 1 {
      SealedHasBlocks(rs[1..]);
    }
  }

  /** A block of `rs` has been used up, unless nothing at all is left. */
  predicate BlockUsed(rs: seq<Recv>, rs': seq<Recv>) {
    rs' == [] || Blocks(rs') < Blocks(rs)
  }

  /** From stream `seen` and oracle `rs`, some calls of `recv` lead to `seen'` and `rs'`. */
  ghost predicate Follows(seen: seq<byte>, rs: seq<Recv>, seen': seq<byte>, rs': seq<Recv>) {
    && seen' + Stream(rs') == seen + Stream(rs)
    && (rs' == rs || Weight(rs') < Weight(rs))
    && (Sealed(rs) ==> Sealed(rs')) && Blocks(rs') <= Blocks(rs)
  }

  lemma FollowsOn(s0: seq<byte>, r0: seq<Recv>, s1: seq<byte>, r1: seq<Recv>, s2: seq<byte>, r2: seq<Recv>)
    requires Follows(s0, r0, s1, r1) && Follows(s1, r1, s2, r2)
    ensures Follows(s0, r0, s2, r2)
    ensures r1 != r0 || r2 != r1 ==> r2 != r0 && Weight(r2) < Weight(r0)
    ensures r2 != r1 ==> Weight(r2) < Weight(r1)
    ensures BlockUsed(r1, r2) ==> BlockUsed(r0, r2)
  {
  }

  datatype SendProgress = Goes | Emptied | Blocked | Gone

  datatype Progress = Broken | Drained | Advanced

  function PackageOf(fd: int, f: seq<byte>): Message {
    Message(fd, Package, f, |f|)
  }

  function PackagesOf(fd: int, fs: seq<seq<byte>>): (ms: seq<Message>)
    ensures |ms| == |fs|
  {
    seq(|fs|, i requires 0 <= i < |fs| => PackageOf(fd, fs[i]))
  }

  lemma PackagesAppend(fd: int, fs: seq<seq<byte>>, f: seq<byte>)
    ensures PackagesOf(fd, fs + [f]) == PackagesOf(fd, fs) + [PackageOf(fd, f)]
  {
  }

  lemma PackagesConcat(fd: int, a: seq<seq<byte>>, b: seq<seq<byte>>)
    ensures PackagesOf(fd, a + b) == PackagesOf(fd, a) + PackagesOf(fd, b)
  {
  }

  class Socket {
    const fd: int
    const max: nat
    var readmessage: Option<Message>
    const sendmq: MessageQueue<Message>
    var recvs: seq<Recv>
    var sends: seq<Send>

    /** All bytes `recv` has handed out, and those of them that belong to delivered frames. */
    ghost var consumed: seq<byte>
    ghost var base: seq<byte>
    ghost var last: Recv
    ghost var delivered: seq<seq<byte>>

    /** All bytes `send` has taken: what the kernel has to transmit. */
    var sent: seq<byte>

    constructor (fd: int, max: nat, wraps: bool, sendQueueSize: nat)
      requires 0 < sendQueueSize < COUNTER_RANGE
      ensures this.fd == fd && this.max == max
      ensures fresh(sendmq) && fresh(sendmq.queue) && sendmq.Valid() && sendmq.InRange()
      ensures sendmq.wraps == wraps && sendmq.maxsize == sendQueueSize
      ensures sendmq.pushed == []
      ensures ReadValid() && WriteValid() && consumed == [] && delivered == [] && sent == []
      ensures recvs == [] && sends == []
    {
      this.fd, this.max := fd, max;
      readmessage := None;
      sendmq := new MessageQueue<Message>(wraps, sendQueueSize);
      recvs, sends := [], [];
      consumed, base, delivered, sent := [], [], [], [];
      last := WouldBlock;
    }

    // ----- receiving

    /** The message under construction holds exactly what was read since the last delivered frame. */
    ghost predicate ReadValid()
      reads this`readmessage, this`consumed, this`base, this`delivered
    {
      && Parse(max, base) == Parsed(delivered, [], false)
      && match readmessage
         case None => consumed == base
         case Some(m) => Partial(m) && consumed == base + m.buf[..m.bytesize]
    }

    predicate Partial(m: Message) {
      && m.fd == fd && m.kind == Package
      && LENGTH_SIZE <= m.bytesize <= |m.buf|
      && IsFrame(max, m.buf)
    }

    /** Bytes read so far parse to the frames delivered, plus a completed frame not pushed yet. */
    lemma ParseConsumed()
      requires ReadValid()
      ensures !Parse(max, consumed).bad && OutsidePrefix(max, consumed)
      ensures Parse(max, consumed).frames ==
              if readmessage.Some? && readmessage.value.bytesize == |readmessage.value.buf|
              then delivered + [readmessage.value.buf] else delivered
    {
      hide Parse;
      match readmessage
      case None =>
      case Some(m) =>
        var cur := m.buf[..m.bytesize];
        assert cur[..LENGTH_SIZE] == m.buf[..LENGTH_SIZE];
        assert m.bytesize == |m.buf| ==> cur == m.buf;
        ParseBoundary(max, base, delivered, cur);
    }

    /** One `recv` of at most `n` bytes. */
    method Recv(n: nat) returns (r: Recv)
      requires n > 0
      modifies this`recvs, this`consumed, this`last
      ensures last == r
      ensures r.Data? ==> |r.bytes| <= n && consumed == old(consumed) + r.bytes
      ensures !r.Data? ==> consumed == old(consumed)
      ensures Follows(old(consumed), old(recvs), consumed, recvs)
      ensures r != WouldBlock || old(recvs) != [] ==> recvs != old(recvs) && Weight(recvs) < old(Weight(recvs))
      ensures r == WouldBlock ==> BlockUsed(old(recvs), recvs)
      ensures old(Admissible(max, consumed, recvs)) <==>
                && r != Failed && r != Data([])
                && (r == WouldBlock ==> OutsidePrefix(max, consumed))
                && Admissible(max, consumed, recvs)
    {
      hide Parse;
      if recvs == [] {
        last := WouldBlock;
        return WouldBlock;
      }
      r := recvs[0];
      if r.Data? && |r.bytes| > n {
        AdmissibleSplit(max, consumed, recvs, n);
        recvs := [Data(r.bytes[n..])] + recvs[1..];
        r := Data(r.bytes[..n]);
      } else {
        recvs := recvs[1..];
      }
      if r.Data? {
        consumed := consumed + r.bytes;
      }
      last := r;
    }

    /**
     Reads until `bufsize` bytes are there, no more are available, or the connection is
     lost; in the last case what was read is dropped.
     */
    method ReadBytes(bufsize: nat) returns (ok: bool, got: seq<byte>)
      requires bufsize > 0
      modifies this`recvs, this`consumed, this`last
      ensures ok ==> |got| <= bufsize && consumed == old(consumed) + got
      ensures ok && |got| < bufsize ==> last == WouldBlock && BlockUsed(old(recvs), recvs)
      ensures !ok ==> last == Failed || last == Data([])
      ensures !ok ==> exists lost :: |lost| < bufsize && consumed == old(consumed) + lost
      ensures Follows(old(consumed), old(recvs), consumed, recvs)
      ensures (ok && got != []) || old(recvs) != [] ==> recvs != old(recvs)
      ensures old(Admissible(max, consumed, recvs)) <==>
                && ok
                && (|got| < bufsize ==> OutsidePrefix(max, consumed))
                && Admissible(max, consumed, recvs)
    {
      assert Follows(consumed, recvs, consumed, recvs);
      hide Parse, OutsidePrefix, Admissible, Stream, Weight, Follows, BlockUsed;
      got := [];
      while |got| < bufsize
        invariant |got| <= bufsize && consumed == old(consumed) + got
        invariant Follows(old(consumed), old(recvs), consumed, recvs)
        invariant got != [] ==> recvs != old(recvs)
        invariant old(Admissible(max, consumed, recvs)) <==> Admissible(max, consumed, recvs)
        decreases Weight(recvs)
      {
        ghost var seen, rs := consumed, recvs;
        var r := Recv(bufsize - |got|);
        FollowsOn(old(consumed), old(recvs), seen, rs, consumed, recvs);
        match r {
          case Data(bytes) =>
            if bytes == [] {
              return false, [];
            }
            got := got + bytes;
          case Interrupted =>
          case WouldBlock => return true, got;
          case Failed => return false, [];
        }
      }
      return true, got;
    }

    /**
     Reads the length prefix of the next frame and makes room for it. A prefix that is
     only partly there counts as an error, like a forbidden length.
     */
    method ReadLength() returns (p: Progress)
      requires ReadValid() && readmessage == None
      modifies this`readmessage, this`recvs, this`consumed, this`last
      ensures ReadEffect(p, old(Admissible(max, consumed, recvs)))
      ensures Follows(old(consumed), old(recvs), consumed, recvs)
      ensures p.Advanced? || old(recvs) != [] ==> recvs != old(recvs)
      ensures p.Drained? ==> BlockUsed(old(recvs), recvs)
    {
      hide Parse, Admissible, Stream, Weight, LittleEndian, Follows, BlockUsed;
      var ok, prefix := ReadBytes(LENGTH_SIZE);
      if !ok {
        ghost var lost :| |lost| < LENGTH_SIZE && consumed == base + lost;
        ParseBoundary(max, base, delivered, lost);
        return Broken;
      }
      ParseBoundary(max, base, delivered, prefix);
      if prefix == [] {
        assert consumed == base;
        return Drained;
      }
      if |prefix| != LENGTH_SIZE {
        return Broken;
      }
      assert prefix[..LENGTH_SIZE] == prefix;
      var len := FrameLength(prefix);
      if len < HEADER_SIZE || len >= max {
        return Broken;
      }
      var m := Message(fd, Package, seq(len, _ => 0), 0);
      m := m.(buf := prefix + m.buf[LENGTH_SIZE..], bytesize := m.bytesize + LENGTH_SIZE);
      assert m.buf[..LENGTH_SIZE] == prefix;
      readmessage := Some(m);
      return Advanced;
    }

    /** Reads into the unfinished frame. */
    method ReadBody() returns (p: Progress)
      requires ReadValid() && readmessage.Some? && readmessage.value.bytesize < |readmessage.value.buf|
      modifies this`readmessage, this`recvs, this`consumed, this`last
      ensures ReadEffect(p, old(Admissible(max, consumed, recvs)))
      ensures Follows(old(consumed), old(recvs), consumed, recvs)
      ensures p.Advanced? || old(recvs) != [] ==> recvs != old(recvs)
      ensures p.Drained? ==> BlockUsed(old(recvs), recvs)
    {
      hide Parse, Admissible, Stream, Weight, LittleEndian, Follows, BlockUsed;
      var m := readmessage.value;
      var ok, got := ReadBytes(|m.buf| - m.bytesize);
      if !ok {
        ghost var lost :| |lost| < |m.buf| - m.bytesize && consumed == old(consumed) + lost;
        ghost var cur := m.buf[..m.bytesize] + lost;
        assert cur[..LENGTH_SIZE] == m.buf[..LENGTH_SIZE];
        assert consumed == base + cur;
        ParseBoundary(max, base, delivered, cur);
        return Broken;
      }
      if got == [] {
        assert consumed == old(consumed);
        ParseConsumed();
        return Drained;
      }
      var filled := m.bytesize + |got|;
      m := m.(buf := m.buf[..m.bytesize] + got + m.buf[filled..], bytesize := filled);
      assert m.buf[..filled] == old(readmessage.value.buf[..readmessage.value.bytesize]) + got;
      assert m.buf[..LENGTH_SIZE] == old(readmessage.value.buf)[..LENGTH_SIZE];
      readmessage := Some(m);
      assert consumed == base + m.buf[..m.bytesize];
      ParseConsumed();
      return Advanced;
    }

    /** The queue has grown by exactly the frames delivered since there were `n` of them. */
    ghost predicate Pushed(mq: MessageQueue<Message>, before: seq<Message>, n: nat)
      reads this`delivered, mq`pushed
    {
      n <= |delivered| && mq.pushed == before + PackagesOf(fd, delivered[n..])
    }

    /** Hands a finished frame to the queue; refused only when the queue is full. */
    method Deliver(mq: MessageQueue<Message>, ghost before: seq<Message>, ghost n: nat) returns (ok: bool)
      requires ReadValid() && readmessage.Some? && readmessage.value.bytesize == |readmessage.value.buf|
      requires mq.Valid() && mq.InRange() && Pushed(mq, before, n)
      modifies this`readmessage, this`base, this`delivered, mq, mq.queue
      ensures ReadValid() && mq.Valid() && mq.InRange() && mq.popped == old(mq.popped)
      ensures ok <==> |old(mq.Contents())| < mq.maxsize - 1
      ensures ok ==> readmessage == None && delivered == old(delivered) + [old(readmessage.value.buf)]
      ensures !ok ==> readmessage == old(readmessage) && delivered == old(delivered) && |mq.Contents()| == mq.maxsize - 1
      ensures Pushed(mq, before, n)
    {
      hide Parse, RingHolds, LittleEndian;
      var m := readmessage.value;
      ok := mq.PushBack(m);
      if ok {
        assert m.buf[..m.bytesize] == m.buf;
        ParseBoundary(max, base, delivered, m.buf);
        PackagesAppend(fd, delivered[n..], m.buf);
        delivered := delivered + [m.buf];
        assert delivered[n..] == old(delivered[n..]) + [m.buf];
        base := consumed;
        readmessage := None;
      }
    }

    /** What a read leaves behind, `admissible` being how the oracle looked before it. */
    ghost predicate ReadEffect(p: Progress, admissible: bool)
      reads this
    {
      if p.Broken?
      then Parse(max, consumed).frames == delivered && (admissible ==> Parse(max, consumed).bad)
      else ReadValid() && (admissible <==> Admissible(max, consumed, recvs)) && (p.Advanced? ==> readmessage.Some?)
           && (p.Drained? ==> Parse(max, consumed).frames == delivered && last == WouldBlock)
    }

    /** Why a socket is given up, `admissible` being how the oracle looked at the start. */
    ghost predicate GivenUp(mq: MessageQueue<Message>, admissible: bool)
      requires mq.Valid()
      reads this, mq, mq.queue
    {
      var frames := Parse(max, consumed).frames;
      || (delivered == frames && (admissible ==> Parse(max, consumed).bad))
      || (|mq.Contents()| == mq.maxsize - 1 && exists f :: frames == delivered + [f])
    }

    /** What a turn of the read loop leaves behind, from oracle `rs`. */
    ghost predicate TurnEffect(p: Progress, mq: MessageQueue<Message>, admissible: bool, rs: seq<Recv>)
      requires mq.Valid()
      reads this, mq, mq.queue
    {
      if p.Broken?
      then GivenUp(mq, admissible)
      else ReadValid() && (admissible <==> Admissible(max, consumed, recvs))
           && (p.Drained? ==>
                 && delivered == Parse(max, consumed).frames && last == WouldBlock
                 && (rs != [] ==> recvs != rs) && BlockUsed(rs, recvs))
    }

    /** Pushes the frame under construction if it is complete, reads into it otherwise. */
    method FinishFrame(mq: MessageQueue<Message>, ghost before: seq<Message>, ghost n: nat) returns (p: Progress)
      requires ReadValid() && readmessage.Some? && mq.Valid() && mq.InRange() && Pushed(mq, before, n)
      modifies this`readmessage, this`recvs, this`consumed, this`last, this`base, this`delivered, mq, mq.queue
      ensures mq.Valid() && mq.InRange() && mq.popped == old(mq.popped)
      ensures old(delivered) <= delivered && Pushed(mq, before, n)
      ensures Follows(old(consumed), old(recvs), consumed, recvs)
      ensures TurnEffect(p, mq, old(Admissible(max, consumed, recvs)), old(recvs))
      ensures p.Advanced? ==> recvs != old(recvs) || readmessage == None
    {
      assert Follows(consumed, recvs, consumed, recvs);
      hide Parse, Admissible, Stream, Weight, LittleEndian, MessageQueue.Valid, Pushed, Follows, BlockUsed;
      if readmessage.value.bytesize == |readmessage.value.buf| {
        var pushed := Deliver(mq, before, n);
        ParseConsumed();
        p := if pushed then Advanced else Broken;
      } else {
        p := ReadBody();
      }
    }

    /** One turn of the read loop. */
    method ReadTurn(mq: MessageQueue<Message>, ghost before: seq<Message>, ghost n: nat) returns (p: Progress)
      requires ReadValid() && mq.Valid() && mq.InRange() && Pushed(mq, before, n)
      modifies this`readmessage, this`recvs, this`consumed, this`last, this`base, this`delivered, mq, mq.queue
      ensures mq.Valid() && mq.InRange() && mq.popped == old(mq.popped)
      ensures old(delivered) <= delivered && Pushed(mq, before, n)
      ensures Follows(old(consumed), old(recvs), consumed, recvs)
      ensures TurnEffect(p, mq, old(Admissible(max, consumed, recvs)), old(recvs))
      ensures p.Advanced? ==> recvs != old(recvs) || (readmessage == None && old(readmessage) != None)
    {
      assert Follows(consumed, recvs, consumed, recvs);
      hide Parse, Admissible, Stream, Weight, MessageQueue.Valid, Pushed, ReadValid, Follows, BlockUsed;
      if readmessage == None {
        p := ReadLength();
        if !p.Advanced? {
          return;
        }
      }
      ghost var seen, rs := consumed, recvs;
      p := FinishFrame(mq, before, n);
      FollowsOn(old(consumed), old(recvs), seen, rs, consumed, recvs);
    }

    /**
     Reads until nothing is available. Whatever the outcome, every frame the consumed bytes
     complete has been pushed, except that a full queue holds back the last of them.
     On an admissible oracle only a forbidden length or a full queue makes it fail.
     */
    method PollRead(mq: MessageQueue<Message>) returns (ok: bool)
      requires ReadValid() && mq.Valid() && mq.InRange()
      modifies this`readmessage, this`recvs, this`consumed, this`last, this`base, this`delivered, mq, mq.queue
      ensures mq.Valid() && mq.InRange() && mq.popped == old(mq.popped)
      ensures old(delivered) <= delivered && Pushed(mq, old(mq.pushed), |old(delivered)|)
      ensures Follows(old(consumed), old(recvs), consumed, recvs)
      ensures ok ==> ReadValid() && delivered == Parse(max, consumed).frames && last == WouldBlock
      ensures ok ==> (old(Admissible(max, consumed, recvs)) <==> Admissible(max, consumed, recvs))
      ensures ok ==> BlockUsed(old(recvs), recvs) && (old(recvs) != [] ==> recvs != old(recvs))
      ensures !ok ==> GivenUp(mq, old(Admissible(max, consumed, recvs)))
    {
      assert delivered[|delivered|..] == [] && Pushed(mq, mq.pushed, |delivered|);
      assert Follows(consumed, recvs, consumed, recvs);
      hide Parse, Admissible, Stream, Weight, MessageQueue.Valid, Pushed, ReadValid, GivenUp, Follows, BlockUsed;
      while true
        invariant ReadValid() && mq.Valid() && mq.InRange() && mq.popped == old(mq.popped)
        invariant old(delivered) <= delivered && Pushed(mq, old(mq.pushed), |old(delivered)|)
        invariant Follows(old(consumed), old(recvs), consumed, recvs)
        invariant old(Admissible(max, consumed, recvs)) <==> Admissible(max, consumed, recvs)
        decreases Weight(recvs), if readmessage.Some? then 1 else 0
      {
        ghost var seen, rs := consumed, recvs;
        var p := ReadTurn(mq, old(mq.pushed), |old(delivered)|);
        FollowsOn(old(consumed), old(recvs), seen, rs, consumed, recvs);
        if !p.Advanced? {
          return p.Drained?;
        }
      }
    }

    /** Everything the oracle still holds, appended to everything read before. */
    ghost function WholeStream(): seq<byte>
      reads this`consumed, this`recvs
    {
      consumed + Stream(recvs)
    }

    /** The queue can take every frame of `s` that has not been delivered yet. */
    ghost predicate HasRoomFor(mq: MessageQueue<Message>, s: seq<byte>)
      requires mq.Valid()
      reads this`delivered, mq, mq.queue
    {
      |mq.Contents()| + |Parse(max, s).frames| - |delivered| <= mq.maxsize - 1
    }

    lemma GivenUpForAReason(mq: MessageQueue<Message>, admissible: bool)
      requires mq.Valid() && GivenUp(mq, admissible)
      ensures delivered <= Parse(max, consumed).frames
      ensures !admissible || Parse(max, WholeStream()).bad || !HasRoomFor(mq, WholeStream())
    {
      ParseAppend(max, consumed, Stream(recvs));
    }

    /**
     A poll that finds nothing behind what has arrived. It fails only for a block inside a
     length prefix, a forbidden length or want of room; a poll that reads everything had room.
     */
    method PollArrived(mq: MessageQueue<Message>) returns (ok: bool)
      requires ReadValid() && mq.Valid() && mq.InRange()
      modifies this`readmessage, this`recvs, this`consumed, this`last, this`base, this`delivered, mq, mq.queue
      ensures mq.Valid() && mq.InRange() && mq.popped == old(mq.popped)
      ensures old(delivered) <= delivered <= Parse(max, consumed).frames
      ensures old(mq.pushed) == PackagesOf(fd, old(delivered)) ==> mq.pushed == PackagesOf(fd, delivered)
      ensures WholeStream() == old(WholeStream())
      ensures Follows(old(consumed), old(recvs) + [WouldBlock], consumed, recvs)
      ensures ok ==> ReadValid() && delivered == Parse(max, consumed).frames && last == WouldBlock
      ensures ok ==> (Admissible(max, old(consumed), old(recvs) + [WouldBlock]) <==> Admissible(max, consumed, recvs))
      ensures ok && recvs == [] ==> old(HasRoomFor(mq, WholeStream()))
      ensures ok && old(Blocks(recvs)) == 0 ==> recvs == []
      ensures !ok ==>
                || !Admissible(max, old(consumed), old(recvs) + [WouldBlock])
                || Parse(max, old(WholeStream())).bad || !old(HasRoomFor(mq, WholeStream()))
    {
      hide Parse, Admissible, RingHolds, PackagesOf, ReadValid, GivenUp;
      StreamAppend(recvs, [WouldBlock]);
      BlocksAppend(recvs, [WouldBlock]);
      recvs := recvs + [WouldBlock];
      assert WholeStream() == old(WholeStream());
      ghost var admissible := Admissible(max, consumed, recvs);
      ok := PollRead(mq);
      assert |mq.Contents()| == |old(mq.Contents())| + |delivered| - |old(delivered)|;
      assert delivered == old(delivered) + delivered[|old(delivered)|..];
      PackagesConcat(fd, old(delivered), delivered[|old(delivered)|..]);
      assert recvs == [] ==> consumed == WholeStream();
      if !ok {
        GivenUpForAReason(mq, admissible);
      } else if recvs != [] {
        SealedHasBlocks(recvs);
      }
    }

    /**
     Chunk independence. Poll after poll until the oracle is used up: all polls succeed
     exactly when the oracle is admissible, no length in the whole stream is forbidden and
     the queue has room; and then what was pushed depends on the concatenated bytes alone.
     */
    method ReadStream(mq: MessageQueue<Message>) returns (ok: bool)
      requires ReadValid() && mq.Valid() && mq.InRange()
      modifies this`readmessage, this`recvs, this`consumed, this`last, this`base, this`delivered, mq, mq.queue
      ensures mq.Valid() && mq.InRange() && mq.popped == old(mq.popped)
      ensures ok <==>
                && old(Admissible(max, consumed, recvs))
                && !Parse(max, old(WholeStream())).bad
                && old(HasRoomFor(mq, WholeStream()))
      ensures ok ==> ReadValid() && recvs == [] && consumed == old(WholeStream())
      ensures ok ==> delivered == Parse(max, old(WholeStream())).frames
      ensures old(delivered) <= delivered && Pushed(mq, old(mq.pushed), |old(delivered)|)
    {
      hide Parse, Weight, RingHolds, GivenUp, PackagesOf;
      assert PackagesOf(fd, delivered[|delivered|..]) == [];
      ghost var whole := WholeStream();
      while true
        invariant ReadValid() && mq.Valid() && mq.InRange() && mq.popped == old(mq.popped)
        invariant old(delivered) <= delivered && Pushed(mq, old(mq.pushed), |old(delivered)|)
        invariant WholeStream() == whole
        invariant old(Admissible(max, consumed, recvs)) <==> Admissible(max, consumed, recvs)
        decreases Weight(recvs)
      {
        ghost var before := delivered[|old(delivered)|..];
        ghost var n := |delivered|;
        ok := PollRead(mq);
        PackagesConcat(fd, before, delivered[n..]);
        assert delivered[|old(delivered)|..] == before + delivered[n..];
        if !ok {
          GivenUpForAReason(mq, old(Admissible(max, consumed, recvs)));
          return;
        }
        if recvs == [] {
          ParseConsumed();
          assert consumed == whole;
          assert Admissible(max, consumed, recvs);
          assert old(Admissible(max, consumed, recvs));
          assert |mq.Contents()| == |old(mq.Contents())| + |delivered| - |old(delivered)|;
          assert old(HasRoomFor(mq, WholeStream()));
          return;
        }
      }
    }

    // ----- sending

    ghost predicate WriteValid()
      reads this`sent, sendmq, sendmq.queue
    {
      && sendmq.Valid()
      && InSendOrder(sendmq.pushed, sendmq.popped)
      && sent == SentBytes(sendmq.pushed, sendmq.popped)
    }

    /** How many bytes each waiting message still lacks. */
    ghost function Lacking(): (ls: seq<nat>)
      requires WriteValid()
      reads this`sent, sendmq, sendmq.queue
    {
      Lacks(sendmq.pushed, sendmq.popped)
    }

    lemma NothingLacking()
      requires WriteValid() && Lacking() == []
      ensures sendmq.Contents() == [] && sendmq.popped == |sendmq.pushed|
    {
      LacksTell(sendmq.pushed, sendmq.popped);
    }

    /** Queues a message for sending; refused only when the send queue is full. */
    method WriteMessage(m: Message) returns (ok: bool)
      requires WriteValid() && sendmq.InRange()
      requires m.bytesize == 0 < |m.buf|
      modifies sendmq, sendmq.queue
      ensures WriteValid() && sendmq.InRange()
      ensures ok <==> |old(sendmq.Contents())| < sendmq.maxsize - 1
      ensures sendmq.pushed == if ok then old(sendmq.pushed) + [m] else old(sendmq.pushed)
      ensures sendmq.popped == old(sendmq.popped)
    {
      hide RingHolds, Flatten;
      ok := sendmq.PushBack(m);
      assert sendmq.pushed[..sendmq.popped] == old(sendmq.pushed[..sendmq.popped]);
    }

    /** One `send` of at most `n` bytes. */
    method SendSome(n: nat) returns (r: Send)
      requires n > 0
      modifies this`sends
      ensures r.Taken? ==> r.n <= n
      ensures if old(sends) == [] then sends == [] && r == SendWouldBlock
              else sends == old(sends)[1..]
                   && r == if old(sends)[0].Taken? && old(sends)[0].n > n then Taken(n) else old(sends)[0]
    {
      if sends == [] {
        return SendWouldBlock;
      }
      r := sends[0];
      sends := sends[1..];
      if r.Taken? && r.n > n {
        r := Taken(n);
      }
    }

    /** Accounts for `n` more bytes of the front message having been taken. */
    method Progressed(m: Message, n: nat)
      requires WriteValid() && sendmq.InRange()
      requires sendmq.Contents() != [] && m == sendmq.Contents()[0]
      requires 0 < n <= |m.buf| - m.bytesize
      modifies this`sent, sendmq, sendmq.queue
      ensures WriteValid()
      ensures Bufs(sendmq.pushed) == old(Bufs(sendmq.pushed)) && old(sendmq.popped) <= sendmq.popped
      ensures sent == old(sent) + m.buf[m.bytesize..m.bytesize + n]
      ensures old(Lacking()) != [] && Lacking() == LacksAfter(old(Lacking()), Taken(n))
      ensures sendmq.InRange() <==> sendmq.wraps || sendmq.popped < sendmq.maxsize
    {
      hide RingHolds, Flatten, SentBytes, Bufs, InSendOrder, Lacks;
      ghost var pushed, popped := sendmq.pushed, sendmq.popped;
      SentMore(pushed, popped, n);
      LacksMore(pushed, popped, n);
      sent := sent + m.buf[m.bytesize..m.bytesize + n];
      var m' := m.(bytesize := m.bytesize + n);
      sendmq.UpdateFront(m');
      if m'.bytesize == |m'.buf| {
        var _ := sendmq.PopFront();
      }
    }

    /** One turn of the send loop; every turn but the one that finds the queue empty uses one result. */
    method SendTurn() returns (t: SendProgress)
      requires WriteValid() && sendmq.InRange()
      modifies this`sent, this`sends, sendmq, sendmq.queue
      ensures WriteValid() && Bufs(sendmq.pushed) == old(Bufs(sendmq.pushed))
      ensures old(sent) <= sent && old(sendmq.popped) <= sendmq.popped
      ensures !sendmq.InRange() ==> t.Goes? && !sendmq.wraps && sendmq.popped == sendmq.maxsize
      ensures if t.Emptied? then sends == old(sends) && sendmq.Contents() == []
              else if old(sends) == [] then t.Blocked? && sends == []
              else sends == old(sends)[1..]
                   && (t.Blocked? ==> old(sends)[0] == SendWouldBlock)
                   && (t.Gone? ==> old(sends)[0] in {Taken(0), SendFailed})
      ensures t.Emptied? <==> old(Lacking()) == []
      ensures Lacking() == if sends == old(sends) then old(Lacking()) else LacksAfter(old(Lacking()), old(sends)[0])
      ensures |sent| == |old(sent)| + if sends == old(sends) then 0 else TakenOf(old(Lacking()), old(sends)[0])
    {
      hide RingHolds, Flatten, SentBytes, Bufs, InSendOrder, Lacks;
      LacksTell(sendmq.pushed, sendmq.popped);
      var empty := sendmq.Empty();
      if empty {
        return Emptied;
      }
      var front := sendmq.Front();
      var m := front.value;
      var r := SendSome(|m.buf| - m.bytesize);
      match r
      case Taken(n) =>
        if n == 0 {
          return Gone;
        }
        Progressed(m, n);
        return Goes;
      case SendInterrupted => return Goes;
      case SendWouldBlock => return Blocked;
      case SendFailed => return Gone;
    }

    /** The send loop; `used` are the results it used up, and `Goes` stands for the range assertion. */
    method SendLoop() returns (t: SendProgress, ghost used: seq<Send>)
      requires WriteValid() && sendmq.InRange()
      modifies this`sent, this`sends, sendmq, sendmq.queue
      ensures WriteValid() && Bufs(sendmq.pushed) == old(Bufs(sendmq.pushed))
      ensures old(sent) <= sent && old(sendmq.popped) <= sendmq.popped
      ensures Tallied(old(Lacking()), old(sends), used, sends, |sent| - |old(sent)|, Lacking())
      ensures t.Goes? <==> !sendmq.InRange()
      ensures t.Goes? ==> !sendmq.wraps && sendmq.popped == sendmq.maxsize
      ensures t.Emptied? ==> sendmq.Contents() == [] && Lacking() == []
      ensures t.Blocked? ==> sends == [] || (used != [] && used[|used| - 1] == SendWouldBlock)
      ensures t.Gone? ==> used != [] && used[|used| - 1] in {Taken(0), SendFailed}
    {
      hide WriteValid, Bufs, MessageQueue.Valid, Lacks, Tallied, TakenOf, LacksAfter;
      used := [];
      TallyNothing(Lacking(), sends);
      while sendmq.InRange()
        invariant WriteValid() && Bufs(sendmq.pushed) == old(Bufs(sendmq.pushed))
        invariant old(sent) <= sent && old(sendmq.popped) <= sendmq.popped
        invariant !sendmq.InRange() ==> !sendmq.wraps && sendmq.popped == sendmq.maxsize
        invariant Tallied(old(Lacking()), old(sends), used, sends, |sent| - |old(sent)|, Lacking())
        decreases |sends|
      {
        ghost var before, now, taken := sends, Lacking(), |sent| - |old(sent)|;
        t := SendTurn();
        if sends != before {
          TallyMore(old(Lacking()), old(sends), used, before, taken, now);
          used := used + [before[0]];
        }
        if !t.Goes? {
          return;
        }
      }
      return Goes, used;
    }

    /**
     Sends from the front of the queue until it is empty, the kernel takes no more, or the
     connection is lost. The bytes taken are always the finished messages in push order
     followed by the first part of the front one. `aborted` is the range assertion of the
     queue without the wrap. Each result adds what it takes, at most what the front message
     lacks; enough results that each cover the front message empty the queue.
     */
    method PollWrite() returns (ok: bool, aborted: bool)
      requires WriteValid() && sendmq.InRange()
      modifies this`sent, this`sends, sendmq, sendmq.queue
      ensures WriteValid() && Bufs(sendmq.pushed) == old(Bufs(sendmq.pushed))
      ensures old(sent) <= sent && old(sendmq.popped) <= sendmq.popped
      ensures aborted <==> !sendmq.InRange()
      ensures aborted ==> !ok && !sendmq.wraps && sendmq.popped == sendmq.maxsize
      ensures |sends| <= |old(sends)| && sends == old(sends)[|old(sends)| - |sends|..]
      ensures ok ==>
                || sendmq.Contents() == [] || sends == []
                || (|sends| < |old(sends)| && LastUsed(old(sends), sends) == SendWouldBlock)
      ensures !ok && !aborted ==> |sends| < |old(sends)| && LastUsed(old(sends), sends) in {Taken(0), SendFailed}
      ensures var used := old(sends)[..|old(sends)| - |sends|];
              |sent| == |old(sent)| + TotalTaken(old(Lacking()), used) && Lacking() == LacksAfterAll(old(Lacking()), used)
      ensures Generous(old(Lacking()), old(sends)) && !aborted ==> ok && sendmq.popped == |sendmq.pushed|
    {
      hide WriteValid, Bufs, MessageQueue.Valid, Lacks, Tallied, TotalTaken, LacksAfterAll, Generous;
      var t, used := SendLoop();
      TallyEnds(old(Lacking()), old(sends), used, sends, |sent| - |old(sent)|, Lacking());
      if Lacking() == [] {
        NothingLacking();
      }
      return !t.Gone? && !t.Goes?, t.Goes?;
    }
  }

  // ----- counting what `send` takes

  /** How many bytes each waiting message still lacks. */
  ghost function Lacks(pushed: seq<Message>, popped: nat): (ls: seq<nat>)
    requires InSendOrder(pushed, popped)
  {
    seq(|pushed| - popped, i requires 0 <= i < |pushed| - popped => |pushed[popped + i].buf| - pushed[popped + i].bytesize)
  }

  lemma LacksTell(pushed: seq<Message>, popped: nat)
    requires InSendOrder(pushed, popped)
    ensures |Lacks(pushed, popped)| == |pushed| - popped
    ensures forall i :: 0 <= i < |pushed| - popped ==>
              Lacks(pushed, popped)[i] == |pushed[popped + i].buf| - pushed[popped + i].bytesize > 0
    ensures popped < |pushed| ==> Lacks(pushed, popped)[0] == |pushed[popped].buf| - pushed[popped].bytesize > 0
  {
  }

  lemma LacksMore(pushed: seq<Message>, popped: nat, n: nat)
    requires popped < |pushed| && InSendOrder(pushed, popped)
    requires 0 < n && pushed[popped].bytesize + n <= |pushed[popped].buf|
    ensures var m := pushed[popped];
            var pushed' := pushed[popped := m.(bytesize := m.bytesize + n)];
            var popped' := if m.bytesize + n == |m.buf| then popped + 1 else popped;
            && InSendOrder(pushed', popped') && Lacks(pushed, popped) != []
            && Lacks(pushed', popped') == LacksAfter(Lacks(pushed, popped), Taken(n))
  {
    hide Lacks, Flatten, Bufs, SentBytes;
    var m := pushed[popped];
    var pushed' := pushed[popped := m.(bytesize := m.bytesize + n)];
    var popped' := if m.bytesize + n == |m.buf| then popped + 1 else popped;
    SentMore(pushed, popped, n);
    hide InSendOrder;
    LacksTell(pushed, popped);
    LacksTell(pushed', popped');
    var lacks, lacks' := Lacks(pushed, popped), Lacks(pushed', popped');
    var after := LacksAfter(lacks, Taken(n));
    assert pushed[popped + 0] == m && lacks[0] == |m.buf| - m.bytesize;
    forall i | 0 <= i < |lacks'| ensures lacks'[i] == after[i] {
      assert pushed'[popped' + i] == if popped' + i == popped then pushed'[popped] else pushed[popped' + i];
      assert popped' > popped ==> pushed[popped + (i + 1)] == pushed[popped' + i];
    }
  }

  /** What one result adds to the bytes sent: no more than the front message lacks. */
  function TakenOf(lacks: seq<nat>, r: Send): nat {
    if lacks == [] || !r.Taken? then 0 else if r.n < lacks[0] then r.n else lacks[0]
  }

  /** A message that lacks nothing any more is no longer waiting. */
  function LacksAfter(lacks: seq<nat>, r: Send): seq<nat> {
    if TakenOf(lacks, r) == 0 then lacks
    else if TakenOf(lacks, r) == lacks[0] then lacks[1..]
    else lacks[0 := lacks[0] - TakenOf(lacks, r)]
  }

  function LacksAfterAll(lacks: seq<nat>, rs: seq<Send>): seq<nat> {
    if rs == [] then lacks else LacksAfter(LacksAfterAll(lacks, rs[..|rs| - 1]), rs[|rs| - 1])
  }

  function TotalTaken(lacks: seq<nat>, rs: seq<Send>): nat {
    if rs == [] then 0
    else TotalTaken(lacks, rs[..|rs| - 1]) + TakenOf(LacksAfterAll(lacks, rs[..|rs| - 1]), rs[|rs| - 1])
  }

  lemma OneMoreResult(lacks: seq<nat>, rs: seq<Send>, r: Send)
    ensures LacksAfterAll(lacks, rs + [r]) == LacksAfter(LacksAfterAll(lacks, rs), r)
    ensures TotalTaken(lacks, rs + [r]) == TotalTaken(lacks, rs) + TakenOf(LacksAfterAll(lacks, rs), r)
  {
    assert (rs + [r])[..|rs|] == rs;
  }

  /** There is a result for every waiting message, and it takes all the message lacks. */
  predicate Generous(lacks: seq<nat>, rs: seq<Send>) {
    |lacks| <= |rs| && forall i :: 0 <= i < |lacks| ==> 0 < lacks[i] && rs[i].Taken? && lacks[i] <= rs[i].n
  }

  lemma {:induction false} GenerousTakes(lacks: seq<nat>, rs: seq<Send>, used: seq<Send>)
    requires Generous(lacks, rs) && used <= rs
    ensures LacksAfterAll(lacks, used) == if |used| <= |lacks| then lacks[|used|..] else []
    decreases |used|
  {
    if used != [] {
      GenerousTakes(lacks, rs, used[..|used| - 1]);
    }
  }

  /** Of the results `all`, those in `used` took `taken` bytes in all and left the messages lacking `now`. */
  ghost predicate Tallied(lacks: seq<nat>, all: seq<Send>, used: seq<Send>, rest: seq<Send>, taken: nat, now: seq<nat>) {
    && all == used + rest && taken == TotalTaken(lacks, used) && now == LacksAfterAll(lacks, used)
    && (Generous(lacks, all) ==> |used| <= |lacks|)
  }

  lemma TallyNothing(lacks: seq<nat>, all: seq<Send>)
    ensures Tallied(lacks, all, [], all, 0, lacks)
  {
  }

  lemma TallyMore(lacks: seq<nat>, all: seq<Send>, used: seq<Send>, rest: seq<Send>, taken: nat, now: seq<nat>)
    requires Tallied(lacks, all, used, rest, taken, now) && rest != [] && now != []
    ensures Tallied(lacks, all, used + [rest[0]], rest[1..], taken + TakenOf(now, rest[0]), LacksAfter(now, rest[0]))
  {
    hide LacksAfterAll, TotalTaken, LacksAfter, TakenOf;
    OneMoreResult(lacks, used, rest[0]);
    if Generous(lacks, all) {
      GenerousTakes(lacks, all, used);
    }
  }

  /** Where it stops: nothing lacks, the results are used up, or the last one used is no progress. */
  lemma TallyEnds(lacks: seq<nat>, all: seq<Send>, used: seq<Send>, rest: seq<Send>, taken: nat, now: seq<nat>)
    requires Tallied(lacks, all, used, rest, taken, now)
    ensures all == used + rest && used == all[..|all| - |rest|]
    ensures taken == TotalTaken(lacks, used) && now == LacksAfterAll(lacks, used)
    ensures Generous(lacks, all) ==>
              && (used != [] ==> used[|used| - 1].Taken? && used[|used| - 1].n > 0)
              && (rest == [] ==> now == [])
  {
    hide LacksAfterAll, TotalTaken;
    if Generous(lacks, all) {
      GenerousTakes(lacks, all, used);
    }
  }

  /** The last of the results that were used up between `before` and `after`. */
  function LastUsed(before: seq<Send>, after: seq<Send>): Send
    requires |after| < |before|
  {
    before[|before| - |after| - 1]
  }

  function Bufs(ms: seq<Message>): (bs: seq<seq<byte>>)
    ensures |bs| == |ms|
  {
    seq(|ms|, i requires 0 <= i < |ms| => ms[i].buf)
  }

  /** Only the front message may be partly sent, and none that waits is sent completely. */
  ghost predicate InSendOrder(pushed: seq<Message>, popped: nat) {
    && popped <= |pushed|
    && (forall i :: popped <= i < |pushed| ==> pushed[i].bytesize < |pushed[i].buf|)
    && (forall i :: popped < i < |pushed| ==> pushed[i].bytesize == 0)
  }

  /** The finished messages in push order, then the first part of the front one. */
  ghost function SentBytes(pushed: seq<Message>, popped: nat): seq<byte>
    requires InSendOrder(pushed, popped)
  {
    Flatten(Bufs(pushed[..popped])) +
    (if popped < |pushed| then pushed[popped].buf[..pushed[popped].bytesize] else [])
  }

  lemma SentMore(pushed: seq<Message>, popped: nat, n: nat)
    requires popped < |pushed| && InSendOrder(pushed, popped)
    requires 0 < n && pushed[popped].bytesize + n <= |pushed[popped].buf|
    ensures var m := pushed[popped];
            var pushed' := pushed[popped := m.(bytesize := m.bytesize + n)];
            var popped' := if m.bytesize + n == |m.buf| then popped + 1 else popped;
            && Bufs(pushed') == Bufs(pushed)
            && InSendOrder(pushed', popped')
            && SentBytes(pushed', popped') == SentBytes(pushed, popped) + m.buf[m.bytesize..m.bytesize + n]
  {
    var m := pushed[popped];
    var pushed' := pushed[popped := m.(bytesize := m.bytesize + n)];
    assert pushed'[..popped] == pushed[..popped];
    if m.bytesize + n == |m.buf| {
      assert Bufs(pushed'[..popped + 1]) == Bufs(pushed[..popped]) + [m.buf];
      FlattenAppend(Bufs(pushed[..popped]), [m.buf]);
      assert Flatten([m.buf]) == m.buf + Flatten([]);
    }
  }
}
