/**
 Two ends of one connection: everything from the worker's encode on one side to the
 message queue on the other, under any interleaving of submissions, partial sends,
 deliveries by the network and reads.
 */
module EndToEnd {
  import opened MessageQueues
  import opened Frames
  import opened Sockets
  import opened Protocol

  datatype Request = Request(msgid: MsgId, payload: seq<byte>)

  function FramesOf(rs: seq<Request>): (fs: seq<seq<byte>>)
    ensures |fs| == |rs|
  {
    seq(|rs|, i requires 0 <= i < |rs| => EncodedFrame(rs[i].msgid, rs[i].payload))
  }

  /** The length field of 32 bits can hold the size of the encoded request. */
  predicate Countable(r: Request) {
    HEADER_SIZE + |r.payload| < WORD
  }

  predicate AllCountable(rs: seq<Request>) {
    forall i :: 0 <= i < |rs| ==> Countable(rs[i])
  }

  predicate Fits(max: nat, r: Request) {
    HEADER_SIZE + |r.payload| < max
  }

  /** How many requests come before the first that exceeds the package limit. */
  function Passing(max: nat, rs: seq<Request>): (k: nat)
    ensures k <= |rs| && (forall i :: 0 <= i < k ==> Fits(max, rs[i]))
    ensures k < |rs| ==> !Fits(max, rs[k])
  {
    if rs == [] || !Fits(max, rs[0]) then 0 else 1 + Passing(max, rs[1..])
  }

  lemma PassingFrames(max: nat, rs: seq<Request>, k: nat)
    requires AllCountable(rs) && k <= Passing(max, rs)
    ensures AreFrames(max, FramesOf(rs)[..k])
  {
    forall i | 0 <= i < k ensures IsFrame(max, FramesOf(rs)[i]) {
      EncodedIsFrame(max, rs[i].msgid, rs[i].payload);
    }
  }

  /** Bytes taken by the kernel are a beginning of all accepted frames; all of them once the queue is empty. */
  lemma SentIsPrefix(pushed: seq<Message>, popped: nat)
    requires InSendOrder(pushed, popped)
    ensures SentBytes(pushed, popped) <= Flatten(Bufs(pushed))
    ensures popped == |pushed| ==> SentBytes(pushed, popped) == Flatten(Bufs(pushed))
  {
    var bs := Bufs(pushed);
    assert Bufs(pushed[..popped]) == bs[..popped];
    assert bs == bs[..popped] + bs[popped..];
    FlattenAppend(bs[..popped], bs[popped..]);
  }

  /** Any beginning of the frames parses to the first of them, at most up to one above the limit. */
  lemma PassingParse(max: nat, rs: seq<Request>, t: seq<byte>)
    requires AllCountable(rs) && t <= Flatten(FramesOf(rs))
    ensures var k, p := Passing(max, rs), Parse(max, t);
            && p.frames <= FramesOf(rs)[..k] && (p.bad ==> k < |rs|)
            && (t == Flatten(FramesOf(rs)) ==> p.frames == FramesOf(rs)[..k] && (p.bad <==> k < |rs|))
  {
    hide Parse, FramesOf, EncodedFrame, FrameLength;
    var k, fs := Passing(max, rs), FramesOf(rs);
    PassingFrames(max, rs, k);
    if k == |rs| {
      assert fs[..k] == fs;
      ParsePrefix(max, fs, t);
      ParseFlatten(max, fs);
    } else {
      BigFrame(max, rs, k);
      assert fs == fs[..k] + fs[k..];
      FlattenAppend(fs[..k], fs[k..]);
      assert Flatten(fs) == Flatten(fs[..k]) + fs[k] + Flatten(fs[k..][1..]);
      ParseStops(max, fs[..k], fs[k], Flatten(fs[k..][1..]), t);
    }
  }

  lemma BigFrame(max: nat, rs: seq<Request>, k: nat)
    requires k < |rs| && Countable(rs[k]) && !Fits(max, rs[k])
    ensures var f := FramesOf(rs)[k]; |f| >= LENGTH_SIZE && !LengthAllowed(max, FrameLength(f))
  {
    EncodedLength(rs[k].msgid, rs[k].payload);
  }

  /**
   The theorem in terms of what the two ends know: the sender's queue, the bytes that
   have arrived, and the frames they complete.
   */
  lemma {:induction false} ArrivesInOrder(max: nat, rs: seq<Request>, pushed: seq<Message>, popped: nat, consumed: seq<byte>, fd: int)
    requires AllCountable(rs)
    requires InSendOrder(pushed, popped) && Bufs(pushed) == FramesOf(rs)
    requires consumed <= SentBytes(pushed, popped)
    ensures var k, p := Passing(max, rs), Parse(max, consumed);
            && p.frames <= FramesOf(rs)[..k] && (p.bad ==> k < |rs|)
            && (popped == |pushed| && consumed == SentBytes(pushed, popped) ==>
                  p.frames == FramesOf(rs)[..k] && (p.bad <==> k < |rs|))
    ensures forall i :: 0 <= i < |Parse(max, consumed).frames| ==> ArrivedAs(rs[i], fd, Parse(max, consumed).frames[i])
  {
    hide Parse, ArrivedAs, EncodedFrame, SentBytes;
    SentIsPrefix(pushed, popped);
    PassingParse(max, rs, consumed);
    forall i | 0 <= i < |Parse(max, consumed).frames|
      ensures ArrivedAs(rs[i], fd, Parse(max, consumed).frames[i])
    {
      assert Parse(max, consumed).frames[i] == FramesOf(rs)[i];
      FrameArrives(rs[i], fd);
    }
  }

  lemma FrameArrives(r: Request, fd: int)
    requires Countable(r)
    ensures ArrivedAs(r, fd, EncodedFrame(r.msgid, r.payload))
  {
    DecodeEncoded(fd, r.msgid, r.payload);
  }

  /** The receiver decodes `f` to the request, or refuses it because its payload is empty. */
  ghost predicate ArrivedAs(r: Request, fd: int, f: seq<byte>) {
    var m := PackageOf(fd, f);
    && Decodable(m)
    && Decode(m) == if r.payload == [] then Rejected else Decoded(r.msgid, r.payload)
  }

  // ----- the running connection

  datatype Act =
    | Submit(r: Request)
    | SendPoll(results: seq<Send>)
    | Transmit(n: nat, pauses: seq<Recv>)
    | ReadPoll
    | Consume

  predicate Pause(r: Recv) {
    r == Interrupted || r == WouldBlock
  }

  predicate Pauses(ps: seq<Recv>) {
    forall i :: 0 <= i < |ps| ==> Pause(ps[i])
  }

  /** What a run assumes of its script: requests the length field can count, and a network that only pauses. */
  predicate Allowed(act: Act) {
    && (act.Submit? ==> Countable(act.r))
    && (act.Transmit? ==> Pauses(act.pauses))
  }

  /** The kernel only ever blocks when nothing is left to read. */
  predicate Prompt(act: Act) {
    act.Transmit? ==> WouldBlock !in act.pauses
  }

  predicate AllPrompt(acts: seq<Act>) {
    forall i :: 0 <= i < |acts| ==> Prompt(acts[i])
  }

  /** The kernel reports the connection of the sender as lost. */
  predicate HangsUp(act: Act) {
    act.SendPoll? && (Taken(0) in act.results || SendFailed in act.results)
  }

  function Submitted(acts: seq<Act>): seq<Request> {
    if acts == [] then []
    else Submitted(acts[..|acts| - 1]) + (if acts[|acts| - 1].Submit? then [acts[|acts| - 1].r] else [])
  }

  /** The requests with a favourable verdict. */
  function Kept(rs: seq<Request>, verdicts: seq<bool>): seq<Request>
    requires |rs| == |verdicts|
  {
    if rs == [] then []
    else Kept(rs[..|rs| - 1], verdicts[..|rs| - 1]) + (if verdicts[|rs| - 1] then [rs[|rs| - 1]] else [])
  }

  // ----- how much there is to send

  function Total(rs: seq<Request>): nat {
    if rs == [] then 0 else Total(rs[..|rs| - 1]) + HEADER_SIZE + |rs[|rs| - 1].payload|
  }

  lemma {:induction false} TotalIsLength(rs: seq<Request>)
    ensures |Flatten(FramesOf(rs))| == Total(rs)
    ensures forall i :: 0 <= i < |rs| ==> |FramesOf(rs)[i]| <= Total(rs)
  {
    if rs != [] {
      var n := |rs| - 1;
      TotalIsLength(rs[..n]);
      hide EncodedFrame, Flatten;
      var fs, init := FramesOf(rs), FramesOf(rs[..n]);
      assert fs == init + [fs[n]];
      FlattenAppend(init, [fs[n]]);
      FlattenFirst(fs[n], []);
      EmptyFlattens();
      assert [fs[n]] + [] == [fs[n]];
      forall i | 0 <= i < |rs| ensures |fs[i]| <= Total(rs) {
        if i < n {
          assert fs[i] == init[i];
        }
      }
    }
  }

  lemma EmptyFlattens()
    ensures Flatten([]) == []
  {
  }

  lemma {:induction false} KeptIsLess(rs: seq<Request>, verdicts: seq<bool>)
    requires |rs| == |verdicts|
    ensures Total(Kept(rs, verdicts)) <= Total(rs)
  {
    if rs != [] {
      var n := |rs| - 1;
      KeptIsLess(rs[..n], verdicts[..n]);
      var init := Kept(rs[..n], verdicts[..n]);
      assert (init + [rs[n]])[..|init|] == init;
      if verdicts[n] {
        assert Kept(rs, verdicts) == init + [rs[n]];
      } else {
        assert Kept(rs, verdicts) == init;
      }
    }
  }

  /** Everything is sent, everything sent arrives, and what arrived is read. */
  function FlushActs(total: nat, sendSize: nat): seq<Act> {
    [SendPoll(seq(sendSize, _ => Taken(total))), Transmit(total, []), ReadPoll]
  }

  // ----- what the network and the worker did, as a record of the run

  /** An act: the bytes that had arrived before and after it, and the messages the receiver's worker had taken. */
  datatype Step = Step(act: Act, from: nat, to: nat, taken: nat)

  /** Bytes arrive by transmission only, in order. */
  predicate Recorded(step: Step, sent: nat) {
    step.from <= step.to <= step.from + (if step.act.Transmit? then step.act.n else 0) && step.to <= sent
  }

  predicate Records(trace: seq<Step>, sent: nat) {
    forall i :: 0 <= i < |trace| ==> Recorded(trace[i], sent)
  }

  function Last(trace: seq<Step>): Step {
    if trace == [] then Step(Consume, 0, 0, 0) else trace[|trace| - 1]
  }

  /** Each step goes on where the one before it ended, and the worker takes one message at a time. */
  predicate Continuous(trace: seq<Step>) {
    trace == [] ||
    (var before, step := Last(trace[..|trace| - 1]), Last(trace);
     && Continuous(trace[..|trace| - 1])
     && step.from == before.to
     && before.taken <= step.taken <= before.taken + (if step.act.Consume? then 1 else 0))
  }

  function Acts(trace: seq<Step>): (acts: seq<Act>)
    ensures |acts| == |trace|
  {
    seq(|trace|, i requires 0 <= i < |trace| => trace[i].act)
  }

  /** What one act adds to the answers of `recv`; behind what has arrived a poll finds nothing. */
  function Answers(step: Step, sent: seq<byte>): seq<Recv>
    requires Recorded(step, |sent|)
  {
    match step.act
    case Transmit(_, pauses) => Arriving(sent[step.from..step.to], pauses)
    case ReadPoll => [WouldBlock]
    case _ => []
  }

  /** All answers of `recv`, given when which bytes arrived. */
  function Fed(trace: seq<Step>, sent: seq<byte>): seq<Recv>
    requires Records(trace, |sent|)
  {
    if trace == [] then [] else Fed(trace[..|trace| - 1], sent) + Answers(trace[|trace| - 1], sent)
  }

  /** At every poll the queue could take all the frames that had arrived. */
  ghost predicate Roomy(max: nat, mqSize: nat, trace: seq<Step>, sent: seq<byte>)
    requires Records(trace, |sent|)
  {
    forall i :: 0 <= i < |trace| ==> HadRoom(max, mqSize, trace[i], sent)
  }

  ghost predicate HadRoom(max: nat, mqSize: nat, step: Step, sent: seq<byte>)
    requires Recorded(step, |sent|)
  {
    step.act.ReadPoll? ==> |Parse(max, sent[..step.to]).frames| < step.taken + mqSize
  }

  lemma {:induction false} FedKept(trace: seq<Step>, sent: seq<byte>, sent': seq<byte>)
    requires Records(trace, |sent|) && sent <= sent'
    ensures Records(trace, |sent'|) && Fed(trace, sent') == Fed(trace, sent)
  {
    if trace != [] {
      FedKept(trace[..|trace| - 1], sent, sent');
      var step := trace[|trace| - 1];
      assert sent'[step.from..step.to] == sent[step.from..step.to];
    }
  }

  lemma RoomyKept(max: nat, mqSize: nat, trace: seq<Step>, sent: seq<byte>, sent': seq<byte>)
    requires Records(trace, |sent|) && sent <= sent'
    ensures Records(trace, |sent'|) && (Roomy(max, mqSize, trace, sent') <==> Roomy(max, mqSize, trace, sent))
  {
    hide Parse;
    forall i | 0 <= i < |trace| ensures HadRoom(max, mqSize, trace[i], sent') == HadRoom(max, mqSize, trace[i], sent) {
      assert Recorded(trace[i], |sent|);
      assert sent'[..trace[i].to] == sent[..trace[i].to];
    }
  }

  lemma RoomyOne(max: nat, mqSize: nat, trace: seq<Step>, step: Step, sent: seq<byte>)
    requires Records(trace, |sent|) && Recorded(step, |sent|)
    ensures Records(trace + [step], |sent|)
    ensures Roomy(max, mqSize, trace + [step], sent) <==> Roomy(max, mqSize, trace, sent) && HadRoom(max, mqSize, step, sent)
  {
    hide HadRoom, Recorded;
    var t := trace + [step];
    if Roomy(max, mqSize, t, sent) {
      forall i | 0 <= i < |trace| ensures HadRoom(max, mqSize, trace[i], sent) {
        assert t[i] == trace[i];
      }
      assert t[|trace|] == step;
    }
  }

  /** One step more. */
  lemma RecordOne(max: nat, mqSize: nat, trace: seq<Step>, step: Step, sent: seq<byte>, sent': seq<byte>)
    requires Records(trace, |sent|) && sent <= sent' && Recorded(step, |sent'|)
    ensures var t := trace + [step];
            && Records(t, |sent'|) && t[..|trace|] == trace && Acts(t) == Acts(trace) + [step.act]
            && Fed(t, sent') == Fed(trace, sent) + Answers(step, sent')
            && (Roomy(max, mqSize, t, sent') <==> Roomy(max, mqSize, trace, sent) && HadRoom(max, mqSize, step, sent'))
  {
    hide Answers, HadRoom, Roomy, Recorded;
    FedKept(trace, sent, sent');
    RoomyKept(max, mqSize, trace, sent, sent');
    RoomyOne(max, mqSize, trace, step, sent');
    var t := trace + [step];
    assert t[..|trace|] == trace;
  }

  lemma {:induction false} PausesCarryNothing(ps: seq<Recv>)
    requires Pauses(ps)
    ensures Stream(ps) == []
  {
    if ps != [] {
      assert Pause(ps[0]);
      PausesCarryNothing(ps[1..]);
    }
  }

  function Arriving(piece: seq<byte>, pauses: seq<Recv>): seq<Recv> {
    if piece == [] then pauses else [Data(piece)] + pauses
  }

  lemma ArrivingStream(piece: seq<byte>, pauses: seq<Recv>)
    requires Pauses(pauses)
    ensures Stream(Arriving(piece, pauses)) == piece
  {
    PausesCarryNothing(pauses);
    if piece != [] {
      assert Arriving(piece, pauses)[1..] == pauses;
    }
  }

  lemma {:induction false} NoBlocks(ps: seq<Recv>)
    requires WouldBlock !in ps
    ensures Blocks(ps) == 0
  {
    if ps != [] {
      NoBlocks(ps[1..]);
    }
  }

  lemma ArrivingBlocks(piece: seq<byte>, pauses: seq<Recv>)
    ensures WouldBlock !in pauses ==> Blocks(Arriving(piece, pauses)) == 0
  {
    if WouldBlock !in pauses {
      NoBlocks(Arriving(piece, pauses));
    }
  }

  /**
   What has arrived and what is left to read judge the network alike, and still do after
   more has arrived.
   */
  ghost predicate SameVerdict(max: nat, fed: seq<Recv>, seen: seq<byte>, rs: seq<Recv>) {
    && Stream(fed) == seen + Stream(rs)
    && (Smooth(max, [], fed) <==> Smooth(max, seen, rs))
  }

  lemma SameVerdictMore(max: nat, fed: seq<Recv>, seen: seq<byte>, rs: seq<Recv>, more: seq<Recv>)
    requires SameVerdict(max, fed, seen, rs)
    ensures SameVerdict(max, fed + more, seen, rs + more)
  {
    hide Stream, Smooth;
    SmoothAppend(max, [], fed, more);
    SmoothAppend(max, seen, rs, more);
    StreamAppend(fed, more);
    StreamAppend(rs, more);
    assert [] + Stream(fed) == seen + Stream(rs);
  }

  /** A poll keeps the verdict. */
  lemma SameVerdictRead(max: nat, fed: seq<Recv>, seen: seq<byte>, rs: seq<Recv>, seen': seq<byte>, rs': seq<Recv>)
    requires SameVerdict(max, fed, seen, rs) && rs != [] && Sealed(rs)
    requires Follows(seen, rs, seen', rs') && OutsidePrefix(max, seen')
    requires Admissible(max, seen, rs) <==> Admissible(max, seen', rs')
    ensures SameVerdict(max, fed, seen', rs')
  {
    hide OutsidePrefix;
    SealedIsSmooth(max, seen, rs);
    if rs' != [] {
      SealedIsSmooth(max, seen', rs');
    }
  }

  lemma OneMore(pushed: seq<Message>, accepted: seq<Request>, m: Message, r: Request)
    requires Bufs(pushed) == FramesOf(accepted) && AllCountable(accepted)
    requires Countable(r) && m.buf == EncodedFrame(r.msgid, r.payload)
    ensures Bufs(pushed + [m]) == FramesOf(accepted + [r]) && AllCountable(accepted + [r])
  {
    hide EncodedFrame;
    assert Bufs(pushed + [m]) == Bufs(pushed) + [m.buf];
    assert FramesOf(accepted + [r]) == FramesOf(accepted) + [m.buf];
  }

  lemma OneKept(offered: seq<Request>, verdicts: seq<bool>, r: Request, ok: bool)
    requires |offered| == |verdicts|
    ensures Kept(offered + [r], verdicts + [ok]) == Kept(offered, verdicts) + if ok then [r] else []
  {
    var rs, vs := offered + [r], verdicts + [ok];
    assert rs[..|rs| - 1] == offered && vs[..|rs| - 1] == verdicts;
  }

  lemma OneSubmitted(acts: seq<Act>, act: Act)
    ensures Submitted(acts + [act]) == Submitted(acts) + if act.Submit? then [act.r] else []
    ensures AllPrompt(acts + [act]) <==> AllPrompt(acts) && Prompt(act)
  {
    hide Prompt;
    var as' := acts + [act];
    assert as'[..|acts|] == acts;
    if AllPrompt(as') {
      assert as'[|acts|] == act;
      forall i | 0 <= i < |acts| ensures Prompt(acts[i]) {
        assert as'[i] == acts[i];
      }
    }
  }

  lemma NothingYet(max: nat, fd: int)
    ensures FramesOf([]) == [] == Bufs([]) && PackagesOf(fd, []) == [] && Parse(max, []).frames == []
    ensures SameVerdict(max, [], [], []) && Stream([]) == [] && Blocks([]) == 0
  {
  }

  lemma SmoothVerdict(max: nat, fed: seq<Recv>, seen: seq<byte>, rs: seq<Recv>)
    requires SameVerdict(max, fed, seen, rs) && rs != [] && Sealed(rs)
    ensures Smooth(max, [], fed) <==> Admissible(max, seen, rs)
  {
    SealedIsSmooth(max, seen, rs);
  }

  // ----- what a run adds up to, step by step

  /** The part of a connection that its record explains. */
  datatype View = View(offered: seq<Request>, sent: seq<byte>, passed: nat, taken: nat,
                       fed: seq<Recv>, roomy: bool, prompt: bool, lost: bool)

  /** One act changes what its step says and nothing else. */
  ghost predicate Adds(max: nat, mqSize: nat, act: Act, v: View, w: View) {
    var step := Step(act, v.passed, w.passed, w.taken);
    && v.sent <= w.sent && Recorded(step, |w.sent|)
    && v.taken <= w.taken <= v.taken + (if act.Consume? then 1 else 0)
    && w.offered == v.offered + (if act.Submit? then [act.r] else [])
    && w.fed == v.fed + Answers(step, w.sent)
    && w.roomy == (v.roomy && HadRoom(max, mqSize, step, w.sent))
    && w.prompt == (v.prompt && Prompt(act))
    && (w.lost ==> HangsUp(act))
  }

  /** `trace` explains the view. */
  ghost predicate Explains(max: nat, mqSize: nat, trace: seq<Step>, v: View) {
    && Records(trace, |v.sent|) && Continuous(trace)
    && Last(trace).to == v.passed && Last(trace).taken == v.taken
    && v.fed == Fed(trace, v.sent) && v.roomy == Roomy(max, mqSize, trace, v.sent)
    && v.offered == Submitted(Acts(trace)) && v.prompt == AllPrompt(Acts(trace))
    && (v.lost ==> exists i :: 0 <= i < |trace| && HangsUp(trace[i].act))
  }

  lemma ExplainsNothing(max: nat, mqSize: nat)
    ensures Explains(max, mqSize, [], View([], [], 0, 0, [], true, true, false))
  {
  }

  lemma ExplainsMore(max: nat, mqSize: nat, trace: seq<Step>, act: Act, v: View, w: View)
    requires Explains(max, mqSize, trace, v) && Adds(max, mqSize, act, v, w)
    ensures var t := trace + [Step(act, v.passed, w.passed, w.taken)];
            Explains(max, mqSize, t, w) && Acts(t) == Acts(trace) + [act]
  {
    hide Fed, Answers, HadRoom, Roomy, Submitted, AllPrompt, HangsUp, Prompt, Records, Acts, Recorded;
    var step := Step(act, v.passed, w.passed, w.taken);
    RecordOne(max, mqSize, trace, step, v.sent, w.sent);
    OneSubmitted(Acts(trace), act);
    var t := trace + [step];
    assert t[|trace|] == step;
  }

  lemma TransmitAdds(max: nat, mqSize: nat, v: View, n: nat, pauses: seq<Recv>, k: nat)
    requires k <= n && v.passed + k <= |v.sent| && !v.lost
    ensures var arriving := Arriving(v.sent[v.passed..v.passed + k], pauses);
            Adds(max, mqSize, Act.Transmit(n, pauses), v,
                 v.(passed := v.passed + k, fed := v.fed + arriving, prompt := v.prompt && WouldBlock !in pauses))
  {
  }

  lemma SendAdds(max: nat, mqSize: nat, v: View, results: seq<Send>, sent: seq<byte>, lost: bool)
    requires v.passed <= |v.sent| && v.sent <= sent && (lost ==> Taken(0) in results || SendFailed in results)
    ensures Adds(max, mqSize, Act.SendPoll(results), v, v.(sent := sent, lost := lost))
  {
  }

  lemma PollAdds(max: nat, mqSize: nat, v: View, room: bool)
    requires v.passed <= |v.sent| && !v.lost
    requires room == HadRoom(max, mqSize, Step(Act.ReadPoll, v.passed, v.passed, v.taken), v.sent)
    ensures Adds(max, mqSize, Act.ReadPoll, v, v.(fed := v.fed + [WouldBlock], roomy := v.roomy && room))
  {
  }

  lemma StillPrompt(max: nat, mqSize: nat, v: View, w: View, n: nat)
    requires Adds(max, mqSize, Act.Transmit(n, []), v, w)
    ensures w.prompt == v.prompt && !w.lost
  {
  }

  class Link {
    const sender: Socket
    const receiver: Socket
    const mq: MessageQueue<Message>
    var passed: nat
    var broken: bool
    var lost: bool

    /** The requests submitted, what became of each, and those that were queued. */
    ghost var offered: seq<Request>
    ghost var verdicts: seq<bool>
    ghost var accepted: seq<Request>

    /** All that `recv` was ever going to answer; whether at every poll the queue had room for all
        that had arrived; and whether the network blocked only with nothing left. */
    ghost var fed: seq<Recv>
    ghost var roomy: bool
    ghost var prompt: bool

    ghost predicate Valid()
      reads this, sender, sender.sendmq, sender.sendmq.queue, receiver, mq, mq.queue
    {
      && sender != receiver && mq != sender.sendmq && mq.queue != sender.sendmq.queue
      && sender.max == receiver.max
      && Sending() && Receiving() && receiver.WholeStream() == sender.sent[..passed]
    }

    ghost predicate Sending()
      reads this`passed, this`accepted, this`offered, this`verdicts, sender, sender.sendmq, sender.sendmq.queue
    {
      && sender.WriteValid() && passed <= |sender.sent|
      && Bufs(sender.sendmq.pushed) == FramesOf(accepted) && AllCountable(accepted)
      && |verdicts| == |offered| && accepted == Kept(offered, verdicts)
    }

    ghost predicate Receiving()
      ensures Receiving() ==> mq.Valid()
      reads this`broken, this`fed, this`roomy, this`prompt, this`accepted, receiver, mq, mq.queue
    {
      && mq.Valid() && mq.pushed == PackagesOf(receiver.fd, receiver.delivered)
      && (if broken then BrokenForAReason() else ReadingWell())
    }

    ghost predicate ReadingWell()
      reads this`fed, this`roomy, this`prompt, receiver
    {
      && receiver.ReadValid() && receiver.delivered == Parse(receiver.max, receiver.consumed).frames
      && SameVerdict(receiver.max, fed, receiver.consumed, receiver.recvs)
      && (prompt ==> roomy && Blocks(receiver.recvs) == 0)
    }

    /** A block inside a length prefix, a full queue, or a request above the limit. */
    ghost predicate BrokenForAReason()
      reads this`fed, this`roomy, this`accepted, receiver
    {
      && receiver.delivered <= Parse(receiver.max, receiver.consumed).frames
      && (!Smooth(receiver.max, [], fed) || !roomy || Passing(receiver.max, accepted) < |accepted|)
    }

    ghost function Look(): View
      reads this, sender, mq
    {
      View(offered, sender.sent, passed, mq.popped, fed, roomy, prompt, lost)
    }

    /** No assertion has failed and both ends hold the connection. */
    predicate Running()
      reads this, sender.sendmq, mq
    {
      sender.sendmq.InRange() && mq.InRange() && !broken && !lost
    }

    constructor (max: nat, wraps: bool, sendSize: nat, mqSize: nat, fd: int, peer: int)
      requires 0 < sendSize < COUNTER_RANGE && 0 < mqSize < COUNTER_RANGE
      ensures Valid() && fresh({sender, receiver, mq, sender.sendmq} + {sender.sendmq.queue} + {mq.queue})
      ensures Running() && Explains(max, mqSize, [], Look()) && mq.maxsize == mqSize && sender.max == receiver.max == max
      ensures sender.sendmq.wraps == mq.wraps == wraps && sender.sendmq.maxsize == sendSize
    {
      hide Parse, Explains, SameVerdict, Stream, Blocks, MessageQueue.Valid, Socket.ReadValid, Socket.WriteValid, FramesOf, PackagesOf, Bufs, Passing;
      sender := new Socket(fd, max, wraps, sendSize);
      receiver := new Socket(peer, max, wraps, sendSize);
      mq := new MessageQueue<Message>(wraps, mqSize);
      passed, broken, lost := 0, false, false;
      offered, verdicts, accepted := [], [], [];
      fed, roomy, prompt := [], true, true;
      new;
      NothingYet(max, receiver.fd);
      ExplainsNothing(max, mqSize);
      assert Sending() && Receiving();
    }

    /** The worker encodes and queues a response; a full queue refuses it. */
    method Submit(r: Request)
      requires Valid() && Running() && Countable(r)
      modifies this`offered, this`verdicts, this`accepted, sender.sendmq, sender.sendmq.queue
      ensures Valid()
      ensures Adds(sender.max, mq.maxsize, Act.Submit(r), old(Look()), Look())
      ensures verdicts == old(verdicts) + [|old(sender.sendmq.Contents())| < sender.sendmq.maxsize - 1]
    {
      hide MessageQueue.Valid, SentBytes, InSendOrder, ReadingWell, EncodedFrame, PackagesOf, FramesOf, Bufs, Kept, AllCountable;
      var m := Encode(sender.fd, r.msgid, r.payload);
      OneMore(sender.sendmq.pushed, accepted, m, r);
      var ok := sender.WriteMessage(m);
      OneKept(offered, verdicts, r, ok);
      offered, verdicts := offered + [r], verdicts + [ok];
      accepted := if ok then accepted + [r] else accepted;
    }

    /** The I/O thread of the sender finds the socket writable. */
    method SendPoll(results: seq<Send>)
      requires Valid() && Running()
      modifies this`lost, sender`sends, sender`sent, sender.sendmq, sender.sendmq.queue
      ensures Valid()
      ensures Adds(sender.max, mq.maxsize, Act.SendPoll(results), old(Look()), Look())
      ensures !lost && sender.sendmq.InRange() ==>
                || sender.sendmq.Contents() == [] || sender.sends == []
                || (|sender.sends| < |results| && LastUsed(results, sender.sends) == SendWouldBlock)
      ensures !lost && sender.sendmq.InRange() && Generous(old(sender.Lacking()), results) ==>
                sender.sendmq.popped == |sender.sendmq.pushed|
    {
      hide Socket.WriteValid, Socket.Lacking, Bufs, Receiving, FramesOf, MessageQueue.Valid, Adds, Generous, TotalTaken, LacksAfterAll, Kept, AllCountable;
      ghost var v := Look();
      sender.sends := results;
      var ok, aborted := sender.PollWrite();
      lost := !ok && !aborted;
      SendAdds(sender.max, mq.maxsize, v, results, sender.sent, lost);
      assert sender.sent[..passed] == old(sender.sent[..passed]);
    }

    /** More for the receiver to read. */
    method Arrive(arriving: seq<Recv>, ghost stillPrompt: bool)
      requires Receiving() && !broken && (stillPrompt ==> prompt && Blocks(arriving) == 0)
      modifies this`fed, this`prompt, receiver`recvs
      ensures Receiving() && receiver.WholeStream() == old(receiver.WholeStream()) + Stream(arriving)
      ensures fed == old(fed) + arriving && prompt == stillPrompt
    {
      hide Parse, PackagesOf, MessageQueue.Valid, Socket.ReadValid, Stream, SameVerdict, Blocks;
      StreamAppend(receiver.recvs, arriving);
      BlocksAppend(receiver.recvs, arriving);
      SameVerdictMore(receiver.max, fed, receiver.consumed, receiver.recvs, arriving);
      receiver.recvs, fed, prompt := receiver.recvs + arriving, fed + arriving, stillPrompt;
    }

    /** The network hands over the next bytes, with pauses after them. */
    method Transmit(n: nat, pauses: seq<Recv>)
      requires Valid() && Running() && Pauses(pauses)
      modifies this`passed, this`fed, this`prompt, receiver`recvs
      ensures Valid()
      ensures passed == if n <= |sender.sent| - old(passed) then old(passed) + n else |sender.sent|
      ensures Adds(sender.max, mq.maxsize, Act.Transmit(n, pauses), old(Look()), Look())
    {
      hide Receiving, Arriving, Pause, Stream, Blocks, Socket.WriteValid, FramesOf, Bufs, Kept, AllCountable, Adds, Socket.WholeStream;
      var k := if n <= |sender.sent| - passed then n else |sender.sent| - passed;
      var piece := sender.sent[passed..passed + k];
      ArrivingStream(piece, pauses);
      ArrivingBlocks(piece, pauses);
      TransmitAdds(sender.max, mq.maxsize, Look(), n, pauses, k);
      Arrive(Arriving(piece, pauses), prompt && WouldBlock !in pauses);
      passed := passed + k;
      assert sender.sent[..passed] == old(sender.sent[..passed]) + piece;
    }

    /** Nothing that has arrived can be a forbidden length, unless a request exceeded the limit. */
    lemma ForbiddenIsTooLarge()
      requires Valid()
      ensures Parse(receiver.max, receiver.WholeStream()).bad ==> Passing(receiver.max, accepted) < |accepted|
    {
      hide Parse, RingHolds, ArrivedAs, FramesOf;
      ArrivesInOrder(receiver.max, accepted, sender.sendmq.pushed, sender.sendmq.popped, receiver.WholeStream(), receiver.fd);
    }

    /** The poll itself, seen from the receiver alone. */
    method ReadArrived()
      requires Receiving() && mq.InRange() && !broken
      requires Parse(receiver.max, receiver.WholeStream()).bad ==> Passing(receiver.max, accepted) < |accepted|
      modifies this`broken, this`fed, this`roomy, receiver, mq, mq.queue
      ensures Receiving() && receiver.WholeStream() == old(receiver.WholeStream()) && fed == old(fed) + [WouldBlock]
      ensures roomy == (old(roomy) && old(receiver.HasRoomFor(mq, receiver.WholeStream())))
      ensures mq.popped == old(mq.popped)
      ensures !broken ==> receiver.last == WouldBlock && (prompt ==> receiver.recvs == [])
    {
      hide Parse, PackagesOf, SameVerdict, Admissible, Smooth, OutsidePrefix, Follows, Stream, Passing, MessageQueue.Valid, Socket.ReadValid, Socket.WholeStream, Socket.HasRoomFor;
      ghost var max, seen, rs := receiver.max, receiver.consumed, receiver.recvs + [WouldBlock];
      ghost var room := receiver.HasRoomFor(mq, receiver.WholeStream());
      SameVerdictMore(max, fed, seen, receiver.recvs, [WouldBlock]);
      fed := fed + [WouldBlock];
      SmoothVerdict(max, fed, seen, rs);
      var ok := receiver.PollArrived(mq);
      broken, roomy := !ok, roomy && room;
      if ok {
        receiver.ParseConsumed();
        SameVerdictRead(max, fed, seen, rs, receiver.consumed, receiver.recvs);
      }
    }

    /** Room for all that has arrived, in the receiver's terms and in those of the record. */
    lemma RoomAgrees()
      requires Valid()
      ensures receiver.HasRoomFor(mq, receiver.WholeStream())
              <==> HadRoom(sender.max, mq.maxsize, Step(Act.ReadPoll, passed, passed, mq.popped), sender.sent)
    {
      hide Parse, Stream, RingHolds, ReadingWell, BrokenForAReason;
      assert |mq.Contents()| == |receiver.delivered| - mq.popped;
    }

    /**
     The I/O thread of the receiver finds the socket readable; behind what has arrived it
     finds nothing.
     */
    method ReadPoll()
      requires Valid() && Running()
      modifies this`broken, this`fed, this`roomy, receiver, mq, mq.queue
      ensures Valid()
      ensures Adds(sender.max, mq.maxsize, Act.ReadPoll, old(Look()), Look())
      ensures !broken ==> receiver.last == WouldBlock && (prompt ==> receiver.recvs == [])
    {
      RoomAgrees();
      PollAdds(sender.max, mq.maxsize, Look(), receiver.HasRoomFor(mq, receiver.WholeStream()));
      hide Adds, Parse, Stream, Passing, Sending, Receiving, MessageQueue.Valid, Socket.WholeStream, Socket.HasRoomFor, HadRoom;
      ForbiddenIsTooLarge();
      ReadArrived();
    }

    /** The worker of the receiver takes a message off its queue. */
    method Consume()
      requires Valid() && Running()
      modifies mq
      ensures Valid() && mq.popped == old(mq.popped) + if old(mq.Contents()) == [] then 0 else 1
      ensures Adds(sender.max, mq.maxsize, Act.Consume, old(Look()), Look())
    {
      hide RingHolds, SentBytes, InSendOrder, FramesOf, Bufs, PackagesOf, ReadingWell;
      var _ := mq.PopFront();
    }

    /** One act, and the record of it. */
    method Perform(act: Act, ghost trace: seq<Step>) returns (ghost t: seq<Step>)
      requires Valid() && Running() && Allowed(act) && Explains(sender.max, mq.maxsize, trace, Look())
      modifies this, sender, sender.sendmq, sender.sendmq.queue, receiver, mq, mq.queue
      ensures Valid() && Explains(sender.max, mq.maxsize, t, Look()) && Acts(t) == Acts(trace) + [act]
    {
      hide Valid, Running, Pause, MessageQueue.Valid, Countable, LastUsed, Adds, Explains, Acts, Look;
      ghost var v := Look();
      match act {
        case Submit(r) => Submit(r);
        case SendPoll(results) => SendPoll(results);
        case Transmit(n, pauses) => Transmit(n, pauses);
        case ReadPoll => ReadPoll();
        case Consume => Consume();
      }
      ExplainsMore(sender.max, mq.maxsize, trace, act, v, Look());
      t := trace + [Step(act, v.passed, Look().passed, Look().taken)];
    }

    /** Any script, as far as the connection lasts. */
    method Run(acts: seq<Act>) returns (done: nat, ghost trace: seq<Step>)
      requires Valid() && Explains(sender.max, mq.maxsize, [], Look())
      requires forall i :: 0 <= i < |acts| ==> Allowed(acts[i])
      modifies this, sender, sender.sendmq, sender.sendmq.queue, receiver, mq, mq.queue
      ensures Valid() && Explains(sender.max, mq.maxsize, trace, Look())
      ensures done <= |acts| && (done < |acts| ==> !Running()) && Acts(trace) == acts[..done]
    {
      hide Valid, MessageQueue.Valid, Explains, Look, Allowed;
      done, trace := 0, [];
      while done < |acts| && Running()
        invariant 0 <= done <= |acts|
        invariant Valid() && Explains(sender.max, mq.maxsize, trace, Look()) && Acts(trace) == acts[..done]
        decreases |acts| - done
      {
        trace := Perform(acts[done], trace);
        done := done + 1;
      }
    }

    /** What the record says of what was submitted and of the network. */
    lemma Views(trace: seq<Step>)
      requires Explains(sender.max, mq.maxsize, trace, Look())
      ensures offered == Submitted(Acts(trace)) && prompt == AllPrompt(Acts(trace))
    {
      hide Submitted, Acts, AllPrompt;
    }

    /** What is waiting to be sent is no more than what was submitted. */
    lemma LittleToSend(total: nat)
      requires Valid() && Total(offered) <= total
      ensures Generous(sender.Lacking(), seq(sender.sendmq.maxsize, _ => Taken(total)))
      ensures |sender.sent| <= total
    {
      hide RingHolds, Receiving, Flatten, EncodedFrame, Kept;
      var pushed, popped := sender.sendmq.pushed, sender.sendmq.popped;
      KeptIsLess(offered, verdicts);
      TotalIsLength(accepted);
      SentIsPrefix(pushed, popped);
      var lacks := sender.Lacking();
      assert |sender.sendmq.Contents()| == |lacks|;
      forall i | 0 <= i < |lacks| ensures 0 < lacks[i] <= total {
        assert |pushed[popped + i].buf| == |Bufs(pushed)[popped + i]|;
      }
    }

    method FlushSend(total: nat, ghost trace: seq<Step>) returns (ghost t: seq<Step>)
      requires Valid() && Running() && Explains(sender.max, mq.maxsize, trace, Look()) && Total(offered) <= total
      modifies this`lost, sender`sends, sender`sent, sender.sendmq, sender.sendmq.queue
      ensures Valid() && Explains(sender.max, mq.maxsize, t, Look())
      ensures Acts(t) == Acts(trace) + [Act.SendPoll(seq(sender.sendmq.maxsize, _ => Taken(total)))]
      ensures Running() ==> sender.sendmq.popped == |sender.sendmq.pushed| && |sender.sent| <= total
    {
      hide Valid, Generous, Adds, Explains, Acts, MessageQueue.Valid, Total, LastUsed;
      LittleToSend(total);
      ghost var v := Look();
      var results := seq(sender.sendmq.maxsize, _ => Taken(total));
      SendPoll(results);
      LittleToSend(total);
      ExplainsMore(sender.max, mq.maxsize, trace, Act.SendPoll(results), v, Look());
      t := trace + [Step(Act.SendPoll(results), v.passed, passed, mq.popped)];
    }

    method FlushRead(total: nat, ghost trace: seq<Step>) returns (ghost t: seq<Step>)
      requires Valid() && Running() && Explains(sender.max, mq.maxsize, trace, Look()) && prompt
      requires sender.sendmq.popped == |sender.sendmq.pushed| && |sender.sent| <= total
      modifies this`broken, this`passed, this`fed, this`prompt, this`roomy, receiver, mq, mq.queue
      ensures Valid() && Explains(sender.max, mq.maxsize, t, Look())
      ensures Acts(t) == Acts(trace) + [Act.Transmit(total, []), Act.ReadPoll]
      ensures !broken ==> Finished()
    {
      assert passed <= |sender.sent|;
      hide Valid, Adds, Explains, Acts, MessageQueue.Valid;
      ghost var v := Look();
      Transmit(total, []);
      StillPrompt(sender.max, mq.maxsize, v, Look(), total);
      ExplainsMore(sender.max, mq.maxsize, trace, Act.Transmit(total, []), v, Look());
      t := trace + [Step(Act.Transmit(total, []), v.passed, passed, mq.popped)];
      ghost var w := Look();
      ReadPoll();
      ExplainsMore(sender.max, mq.maxsize, t, Act.ReadPoll, w, Look());
      t := t + [Step(Act.ReadPoll, w.passed, passed, mq.popped)];
    }

    /** Three more acts; if they all come about and the connection holds, everything has been delivered. */
    method Flush(total: nat, ghost trace: seq<Step>) returns (done: nat, ghost t: seq<Step>)
      requires Valid() && Explains(sender.max, mq.maxsize, trace, Look()) && prompt && Total(offered) <= total
      modifies this, sender, sender.sendmq, sender.sendmq.queue, receiver, mq, mq.queue
      ensures Valid() && Explains(sender.max, mq.maxsize, t, Look())
      ensures done <= 3 && Acts(t) == Acts(trace) + FlushActs(total, sender.sendmq.maxsize)[..done]
      ensures done < 3 ==> !Running()
      ensures done == 3 && !broken ==> Finished()
    {
      hide Valid, Explains, Acts, MessageQueue.Valid, Total, Finished;
      ghost var script := FlushActs(total, sender.sendmq.maxsize);
      done, t := 0, trace;
      if !Running() {
        return;
      }
      t := FlushSend(total, trace);
      done := 1;
      if !Running() {
        assert script[..1] == [script[0]];
        return;
      }
      t := FlushRead(total, t);
      done := 3;
      assert script[..3] == [script[0]] + [Act.Transmit(total, []), Act.ReadPoll];
    }

    /**
     What has arrived is a beginning of what was accepted, up to the first request above
     the limit, and all of that once everything was sent and read.
     */
    lemma Arrived()
      requires Valid()
      ensures var k := Passing(sender.max, accepted);
              && receiver.delivered <= FramesOf(accepted)[..k]
              && (receiver.consumed == sender.sent && sender.sendmq.popped == |sender.sendmq.pushed| && !broken ==>
                    k == |accepted| && receiver.delivered == FramesOf(accepted))
      ensures forall i :: 0 <= i < |receiver.delivered| ==> ArrivedAs(accepted[i], receiver.fd, receiver.delivered[i])
    {
      hide RingHolds, ArrivedAs;
      assert receiver.consumed <= sender.sent;
      if !broken {
        receiver.ParseConsumed();
      }
      hide Parse, SameVerdict, PackagesOf;
      ArrivesInOrder(receiver.max, accepted, sender.sendmq.pushed, sender.sendmq.popped, receiver.consumed, receiver.fd);
    }

    /** No poll ran dry inside a length prefix, each had room for all that had arrived, and all requests were within the limit. */
    ghost predicate Sound(trace: seq<Step>)
      requires Records(trace, |sender.sent|)
      reads this, sender, mq
    {
      && Smooth(sender.max, [], Fed(trace, sender.sent))
      && Roomy(sender.max, mq.maxsize, trace, sender.sent)
      && Passing(sender.max, accepted) == |accepted|
    }

    /** Everything accepted was sent, has arrived and was read. */
    ghost predicate Finished()
      reads this, sender, sender.sendmq, receiver
    {
      sender.sendmq.popped == |sender.sendmq.pushed| && passed == |sender.sent| && receiver.recvs == []
    }

    /** A sound connection holds, and one that holds delivers; over a prompt network it holds only if sound. */
    lemma Outcome(trace: seq<Step>)
      requires Valid() && Explains(sender.max, mq.maxsize, trace, Look())
      ensures |verdicts| == |offered| && accepted == Kept(offered, verdicts)
      ensures mq.pushed == PackagesOf(receiver.fd, receiver.delivered)
      ensures (sender.sendmq.wraps ==> sender.sendmq.InRange()) && (mq.wraps ==> mq.InRange())
      ensures Sound(trace) ==> !broken
      ensures Finished() && !broken ==> receiver.delivered == FramesOf(accepted)
      ensures Finished() && !broken && AllPrompt(Acts(trace)) ==> Sound(trace)
    {
      Arrived();
      hide RingHolds, Parse, PackagesOf, FramesOf, Kept, SentBytes, Passing, Fed, Roomy, AllPrompt, Submitted;
    }
  }

  /**
   Every run of the connection; `trace` records when which bytes arrived and messages were
   taken. Whatever happens, the receiver has been given the first so many accepted requests,
   in order and byte for byte. The connection holds if no poll ran dry inside a length
   prefix, the queue had room at every poll and no request exceeded the limit, and then
   every accepted request arrives; over a network that blocks only when nothing is left,
   it holds exactly then.
   */
  method Exchange(max: nat, wraps: bool, sendSize: nat, mqSize: nat, acts: seq<Act>)
    returns (link: Link, done: nat, ghost trace: seq<Step>)
    requires 0 < sendSize < COUNTER_RANGE && 0 < mqSize < COUNTER_RANGE
    requires forall i :: 0 <= i < |acts| ==> Allowed(acts[i])
    ensures link.Valid() && link.sender.max == max && done <= |acts|
    ensures done < |acts| ==> !link.Running() && (wraps ==> link.broken || link.lost)
    ensures Explains(max, mqSize, trace, link.Look()) && Acts(trace) == acts[..done]
    ensures |link.verdicts| == |link.offered| && link.accepted == Kept(link.offered, link.verdicts)
    ensures link.receiver.delivered <= FramesOf(link.accepted)[..Passing(max, link.accepted)]
    ensures forall i :: 0 <= i < |link.receiver.delivered| ==>
              ArrivedAs(link.accepted[i], link.receiver.fd, link.receiver.delivered[i])
    ensures link.mq.pushed == PackagesOf(link.receiver.fd, link.receiver.delivered)
    ensures link.Sound(trace) ==> !link.broken
    ensures link.Finished() && !link.broken ==> link.receiver.delivered == FramesOf(link.accepted)
    ensures link.Finished() && !link.broken && AllPrompt(acts[..done]) ==> link.Sound(trace)
  {
    hide Link.Valid, Explains, Link.Sound, Link.Finished, MessageQueue.Valid, ArrivedAs, FramesOf, PackagesOf, Kept, AllPrompt, Acts, Allowed;
    link := new Link(max, wraps, sendSize, mqSize, 0, 0);
    done, trace := link.Run(acts);
    link.Arrived();
    link.Outcome(trace);
  }

  /**
   Any script over a prompt network, followed by sending, transmitting and reading what is
   left: if the run is not cut short, the connection holds exactly if it was sound, and then
   every accepted request has been delivered.
   */
  method ExchangeAll(max: nat, wraps: bool, sendSize: nat, mqSize: nat, acts: seq<Act>)
    returns (link: Link, done: nat, ghost trace: seq<Step>)
    requires 0 < sendSize < COUNTER_RANGE && 0 < mqSize < COUNTER_RANGE
    requires (forall i :: 0 <= i < |acts| ==> Allowed(acts[i])) && AllPrompt(acts)
    ensures var script := acts + FlushActs(Total(Submitted(acts)), sendSize);
            && link.Valid() && Explains(max, mqSize, trace, link.Look())
            && done <= |script| && Acts(trace) == script[..done]
            && (done < |script| ==> !link.Running() && (wraps ==> link.broken || link.lost))
            && (done == |script| ==>
                  && (!link.broken <==> link.Sound(trace))
                  && (!link.broken ==> link.receiver.delivered == FramesOf(link.accepted)))
  {
    hide Link.Valid, Explains, Link.Sound, Link.Finished, Link.Look, MessageQueue.Valid, FramesOf, Acts, Allowed, Submitted, Total;
    link := new Link(max, wraps, sendSize, mqSize, 0, 0);
    done, trace := link.Run(acts);
    ghost var script := acts + FlushActs(Total(Submitted(acts)), sendSize);
    if done == |acts| {
      assert acts[..done] == acts;
      link.Views(trace);
      var more;
      more, trace := link.Flush(Total(Submitted(acts)), trace);
      done := done + more;
      assert script[..done] == acts + FlushActs(Total(Submitted(acts)), sendSize)[..more];
      link.Outcome(trace);
      FlushIsPrompt(acts, Total(Submitted(acts)), sendSize);
    } else {
      assert script[..done] == acts[..done];
      link.Outcome(trace);
    }
  }

  lemma FlushIsPrompt(acts: seq<Act>, total: nat, sendSize: nat)
    requires AllPrompt(acts)
    ensures AllPrompt(acts + FlushActs(total, sendSize))
  {
  }
}
