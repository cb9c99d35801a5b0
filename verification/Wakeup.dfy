/**
 The wake-up handshake between the I/O thread and the worker.

 Both queues are FIFO sequences here, each index access having been dealt with in
 QueueInterleaving. Sockets are registered edge triggered. The kernel is assumed to behave so: a
 modification that asks for writability raises a readiness event if there is space, and
 otherwise owes one; a send that would block makes it owe one; when space appears an owed
 event is raised if writability is asked for.
 */
module Wakeup {

  type Fd = int
  type Message = int

  datatype Conn = Conn(sendq: seq<Message>, armed: bool, owed: bool, ready: bool)

  const NEW_CONN := Conn([], false, false, false)

  datatype IoThread =
    | IoWait                              // blocked in, or about to enter, the poll
    | IoBatch(out: set<Fd>)               // working through the events, `out` still to be written
    | IoWriting(fd: Fd, out: set<Fd>)     // inside the send loop of one socket
    | IoCheck                             // batch finished, about to test the queue
    | IoWake                              // found it non-empty, about to wake the worker

  datatype Worker =
    | WkWait                              // blocked in, or about to enter, the poll
    | WkDrain                             // at the head of the loop that empties the queue
    | WkBusy(timers: bool)                // in a message handler, or in the timers after the loop
    | WkArm(fd: Fd, timers: bool)         // queued a response, about to ask for writability

  datatype System = System(
    capacity: nat, mq: seq<Message>, wake: bool, io: IoThread, worker: Worker, conns: map<Fd, Conn>)

  datatype Step =
    // I/O thread
    | IoReturn(fds: set<Fd>)
    | IoPush(m: Message)
    | IoAccept(fd: Fd)
    | IoRemove(fd: Fd)
    | IoWrite(fd: Fd)
    | IoSent(fd: Fd, m: Message, whole: bool)
    | IoSeesEmpty
    | IoBlocks
    | IoFails(fd: Fd)
    | IoEndOfBatch
    | IoTest
    | IoWakes
    // worker
    | WkReturn(event: bool)
    | WkPop(m: Message)
    | WkSeesEmpty
    | WkConnect(fd: Fd)
    | WkRespond(fd: Fd, m: Message)
    | WkArms(space: bool)
    | WkDone
    // kernel
    | Space(fd: Fd)

  ghost predicate Init(s: System) {
    s.mq == [] && !s.wake && s.io == IoWait && s.worker == WkWait && s.conns == map[]
  }

  predicate Enabled(s: System, st: Step) {
    match st
    case IoReturn(fds) => s.io.IoWait? && (forall fd <- fds :: fd in s.conns && s.conns[fd].ready)
    case IoPush(_) => s.io.IoBatch? && |s.mq| < s.capacity
    case IoAccept(fd) => s.io.IoBatch? && fd !in s.conns
    case IoRemove(fd) => s.io.IoBatch? && fd in s.conns
    case IoWrite(fd) => s.io.IoBatch? && fd in s.io.out
    case IoSent(fd, m, _) => s.io.IoWriting? && fd == s.io.fd && fd in s.conns && s.conns[fd].sendq != [] && m == s.conns[fd].sendq[0]
    case IoSeesEmpty => s.io.IoWriting? && s.io.fd in s.conns && s.conns[s.io.fd].sendq == []
    case IoBlocks => s.io.IoWriting? && s.io.fd in s.conns && s.conns[s.io.fd].sendq != []
    case IoFails(fd) => s.io.IoWriting? && fd == s.io.fd && fd in s.conns
    case IoEndOfBatch => s.io == IoBatch({})
    case IoTest => s.io.IoCheck?
    case IoWakes => s.io.IoWake?
    case WkReturn(event) => s.worker.WkWait? && (event ==> s.wake)
    case WkPop(m) => s.worker.WkDrain? && s.mq != [] && m == s.mq[0]
    case WkSeesEmpty => s.worker.WkDrain? && s.mq == []
    case WkConnect(fd) => s.worker.WkBusy? && fd !in s.conns
    case WkRespond(fd, _) => s.worker.WkBusy? && fd in s.conns
    case WkArms(_) => s.worker.WkArm?
    case WkDone => s.worker.WkBusy?
    case Space(fd) => fd in s.conns && s.conns[fd].owed
  }

  function Apply(s: System, st: Step): System
    requires Enabled(s, st)
  {
    match st
    case IoReturn(fds) =>
      s.(io := IoBatch(fds),
         conns := map fd <- s.conns :: if fd in fds then s.conns[fd].(ready := false) else s.conns[fd])
    case IoPush(m) => s.(mq := s.mq + [m])
    case IoAccept(fd) => s.(conns := s.conns[fd := NEW_CONN])
    case IoRemove(fd) => s.(conns := s.conns - {fd})
    case IoWrite(fd) =>
      s.(io := if fd in s.conns then IoWriting(fd, s.io.out - {fd}) else IoBatch(s.io.out - {fd}))
    case IoSent(fd, _, whole) =>
      var c := s.conns[fd];
      s.(conns := s.conns[fd := if whole then c.(sendq := c.sendq[1..]) else c])
    case IoSeesEmpty => s.(io := IoBatch(s.io.out))
    case IoBlocks => s.(io := IoBatch(s.io.out), conns := s.conns[s.io.fd := s.conns[s.io.fd].(owed := true)])
    case IoFails(fd) => s.(io := IoBatch(s.io.out), conns := s.conns - {fd})
    case IoEndOfBatch => s.(io := IoCheck)
    case IoTest => s.(io := if s.mq == [] then IoWait else IoWake)
    case IoWakes => s.(io := IoWait, wake := true)
    case WkReturn(event) => s.(worker := WkDrain, wake := s.wake && !event)
    case WkPop(_) => s.(worker := WkBusy(false), mq := s.mq[1..])
    case WkSeesEmpty => s.(worker := WkBusy(true))
    case WkConnect(fd) => s.(conns := s.conns[fd := NEW_CONN])
    case WkRespond(fd, m) =>
      s.(worker := WkArm(fd, s.worker.timers), conns := s.conns[fd := s.conns[fd].(sendq := s.conns[fd].sendq + [m])])
    case WkArms(space) =>
      var fd := s.worker.fd;
      s.(worker := WkBusy(s.worker.timers),
         conns := if fd !in s.conns then s.conns
                  else s.conns[fd := if space then s.conns[fd].(armed := true, ready := true)
                                     else s.conns[fd].(armed := true, owed := true)])
    case WkDone => s.(worker := if s.worker.timers then WkWait else WkDrain)
    case Space(fd) =>
      var c := s.conns[fd];
      s.(conns := s.conns[fd := c.(owed := false, ready := c.ready || c.armed)])
  }

  /** The worker is up and has yet to find the queue empty. */
  predicate BeforeEmpty(w: Worker) {
    w.WkDrain? || (w.WkBusy? && !w.timers) || (w.WkArm? && !w.timers)
  }

  predicate MessageWakeup(s: System) {
    s.mq != [] ==> !s.io.IoWait? || s.wake || BeforeEmpty(s.worker)
  }

  predicate BeingServed(io: IoThread, fd: Fd) {
    (io.IoBatch? && fd in io.out) || (io.IoWriting? && (fd == io.fd || fd in io.out))
  }

  predicate ResponseWakeup(s: System, fd: Fd)
    requires fd in s.conns
  {
    var c := s.conns[fd];
    c.sendq != [] ==>
      || (s.worker.WkArm? && s.worker.fd == fd)
      || (c.armed && (c.ready || c.owed || BeingServed(s.io, fd)))
  }

  ghost predicate Inv(s: System) {
    && MessageWakeup(s)
    && forall fd :: fd in s.conns ==> ResponseWakeup(s, fd)
  }

  lemma StepKeepsMessages(s: System, st: Step)
    requires Inv(s) && Enabled(s, st)
    ensures MessageWakeup(Apply(s, st))
  {
    hide ResponseWakeup;
  }

  predicate ByWorker(st: Step) {
    st.WkReturn? || st.WkPop? || st.WkSeesEmpty? || st.WkConnect? || st.WkRespond? || st.WkArms? || st.WkDone?
  }

  lemma WorkerKeepsResponses(s: System, st: Step, fd: Fd)
    requires (fd in s.conns ==> ResponseWakeup(s, fd)) && Enabled(s, st) && ByWorker(st) && fd in Apply(s, st).conns
    ensures ResponseWakeup(Apply(s, st), fd)
  {
  }

  lemma OthersKeepResponses(s: System, st: Step, fd: Fd)
    requires (fd in s.conns ==> ResponseWakeup(s, fd)) && Enabled(s, st) && !ByWorker(st) && fd in Apply(s, st).conns
    ensures ResponseWakeup(Apply(s, st), fd)
  {
  }

  lemma StepKeepsResponses(s: System, st: Step, fd: Fd)
    requires Inv(s) && Enabled(s, st) && fd in Apply(s, st).conns
    ensures ResponseWakeup(Apply(s, st), fd)
  {
    hide ResponseWakeup, Apply, Enabled;
    if ByWorker(st) {
      WorkerKeepsResponses(s, st, fd);
    } else {
      OthersKeepResponses(s, st, fd);
    }
  }

  ghost predicate Run(states: seq<System>, steps: seq<Step>) {
    && |states| == |steps| + 1
    && Init(states[0])
    && forall i :: 0 <= i < |steps| ==> Enabled(states[i], steps[i]) && states[i + 1] == Apply(states[i], steps[i])
  }

  /** No wake-up is lost in any state of any run, in either direction. */
  lemma {:induction false} NoLostWakeup(states: seq<System>, steps: seq<Step>, k: nat)
    requires Run(states, steps) && k <= |steps|
    ensures Inv(states[k])
  {
    if k > 0 {
      NoLostWakeup(states, steps, k - 1);
      var s, st := states[k - 1], steps[k - 1];
      assert states[k - 1 + 1] == Apply(s, st);
      StepKeepsMessages(s, st);
      forall fd | fd in states[k].conns ensures ResponseWakeup(states[k], fd) {
        StepKeepsResponses(s, st, fd);
      }
    }
  }

  // ----- conservation, from the steps alone

  /** Messages for the worker, in the order they were pushed. */
  function Pushed(steps: seq<Step>): seq<Message> {
    if steps == [] then []
    else Pushed(steps[..|steps| - 1]) + (var st := steps[|steps| - 1]; if st.IoPush? then [st.m] else [])
  }

  /** Messages the worker took, in the order it took them. */
  function Popped(steps: seq<Step>): seq<Message> {
    if steps == [] then []
    else Popped(steps[..|steps| - 1]) + (var st := steps[|steps| - 1]; if st.WkPop? then [st.m] else [])
  }

  predicate Opens(st: Step, fd: Fd) {
    st == IoAccept(fd) || st == WkConnect(fd)
  }

  predicate Closes(st: Step, fd: Fd) {
    st == IoRemove(fd) || st == IoFails(fd)
  }

  /** A descriptor is open from the step that opens it to the step that closes it. */
  predicate IsOpen(steps: seq<Step>, fd: Fd) {
    steps != [] &&
    var st := steps[|steps| - 1];
    Opens(st, fd) || (!Closes(st, fd) && IsOpen(steps[..|steps| - 1], fd))
  }

  /** Responses to a descriptor since it was last opened. */
  function Responded(steps: seq<Step>, fd: Fd): seq<Message> {
    if steps == [] then []
    else
      var st := steps[|steps| - 1];
      if Opens(st, fd) then []
      else Responded(steps[..|steps| - 1], fd) + if st.WkRespond? && st.fd == fd then [st.m] else []
  }

  /** Responses sent as a whole since the descriptor was last opened. */
  function SentWhole(steps: seq<Step>, fd: Fd): seq<Message> {
    if steps == [] then []
    else
      var st := steps[|steps| - 1];
      if Opens(st, fd) then []
      else SentWhole(steps[..|steps| - 1], fd) + if st.IoSent? && st.fd == fd && st.whole then [st.m] else []
  }

  /** The state holds exactly what has come and not yet gone. */
  ghost predicate Accounted(s: System, steps: seq<Step>) {
    && Pushed(steps) == Popped(steps) + s.mq
    && forall fd :: AccountedAt(s, steps, fd)
  }

  ghost predicate AccountedAt(s: System, steps: seq<Step>, fd: Fd) {
    && (fd in s.conns <==> IsOpen(steps, fd))
    && (fd in s.conns ==> Responded(steps, fd) == SentWhole(steps, fd) + s.conns[fd].sendq)
  }

  /** What one more step adds to the record. */
  lemma RecordMore(steps: seq<Step>, st: Step, fd: Fd)
    ensures var all := steps + [st];
            && Pushed(all) == Pushed(steps) + (if st.IoPush? then [st.m] else [])
            && Popped(all) == Popped(steps) + (if st.WkPop? then [st.m] else [])
            && (IsOpen(all, fd) <==> Opens(st, fd) || (!Closes(st, fd) && IsOpen(steps, fd)))
            && Responded(all, fd) == (if Opens(st, fd) then []
                                      else Responded(steps, fd) + if st.WkRespond? && st.fd == fd then [st.m] else [])
            && SentWhole(all, fd) == (if Opens(st, fd) then []
                                      else SentWhole(steps, fd) + if st.IoSent? && st.fd == fd && st.whole then [st.m] else [])
  {
    assert (steps + [st])[..|steps|] == steps;
  }

  /** What one step does to the queues. */
  lemma SendqAfter(s: System, st: Step, fd: Fd)
    requires Enabled(s, st)
    ensures fd in Apply(s, st).conns <==> Opens(st, fd) || (!Closes(st, fd) && fd in s.conns)
    ensures Opens(st, fd) ==> Apply(s, st).conns[fd].sendq == []
    ensures fd in Apply(s, st).conns && fd in s.conns ==>
              var q, q' := s.conns[fd].sendq, Apply(s, st).conns[fd].sendq;
              if st.WkRespond? && st.fd == fd then q' == q + [st.m]
              else if st.IoSent? && st.fd == fd && st.whole then q == [st.m] + q'
              else q' == q
  {
  }

  lemma MqAfter(s: System, st: Step)
    requires Enabled(s, st)
    ensures var q, q' := s.mq, Apply(s, st).mq;
            if st.IoPush? then q' == q + [st.m] else if st.WkPop? then q == [st.m] + q' else q' == q
  {
  }

  lemma StepAccountsAt(s: System, steps: seq<Step>, st: Step, fd: Fd)
    requires AccountedAt(s, steps, fd) && Enabled(s, st)
    ensures AccountedAt(Apply(s, st), steps + [st], fd)
  {
    hide Pushed, Popped, IsOpen, Responded, SentWhole, Apply;
    RecordMore(steps, st, fd);
    SendqAfter(s, st, fd);
    hide Enabled;
  }

  lemma StepAccountsMessages(s: System, steps: seq<Step>, st: Step)
    requires Pushed(steps) == Popped(steps) + s.mq && Enabled(s, st)
    ensures Pushed(steps + [st]) == Popped(steps + [st]) + Apply(s, st).mq
  {
    hide Pushed, Popped, IsOpen, Responded, SentWhole, Apply;
    RecordMore(steps, st, 0);
    MqAfter(s, st);
  }

  lemma StepAccounts(s: System, steps: seq<Step>, st: Step)
    requires Accounted(s, steps) && Enabled(s, st)
    ensures Accounted(Apply(s, st), steps + [st])
  {
    StepAccountsMessages(s, steps, st);
    hide AccountedAt, Pushed, Popped;
    forall fd ensures AccountedAt(Apply(s, st), steps + [st], fd) {
      StepAccountsAt(s, steps, st, fd);
    }
  }

  /**
   Nothing is lost, doubled or reordered in any state of any run: messages pushed are those
   taken and then those waiting, and the responses to an open descriptor are those sent and
   then those waiting.
   */
  lemma {:induction false} NothingLost(states: seq<System>, steps: seq<Step>, k: nat)
    requires Run(states, steps) && k <= |steps|
    ensures Accounted(states[k], steps[..k])
  {
    if k == 0 {
      assert steps[..0] == [];
      forall fd ensures AccountedAt(states[0], [], fd) {}
    } else {
      hide Accounted;
      NothingLost(states, steps, k - 1);
      assert states[k - 1 + 1] == Apply(states[k - 1], steps[k - 1]);
      StepAccounts(states[k - 1], steps[..k - 1], steps[k - 1]);
      assert steps[..k] == steps[..k - 1] + [steps[k - 1]];
    }
  }

  /**
   When both threads sleep and nothing is pending, nothing is stuck: every message pushed has
   been taken, in order, and every response was sent, in order, except behind a full socket
   whose next free space raises an event.
   */
  lemma QuiescentMeansDelivered(states: seq<System>, steps: seq<Step>, k: nat)
    requires Run(states, steps) && k <= |steps|
    requires var s := states[k];
             && s.io == IoWait && s.worker == WkWait && !s.wake
             && forall fd :: fd in s.conns ==> !s.conns[fd].ready
    ensures Popped(steps[..k]) == Pushed(steps[..k])
    ensures forall fd :: fd in states[k].conns ==> DeliveredTo(states[k], steps[..k], fd)
  {
    NoLostWakeup(states, steps, k);
    NothingLost(states, steps, k);
    forall fd | fd in states[k].conns ensures DeliveredTo(states[k], steps[..k], fd) {
      assert ResponseWakeup(states[k], fd) && AccountedAt(states[k], steps[..k], fd);
    }
  }

  /** All responses were sent, or the rest waits for space that will raise an event. */
  ghost predicate DeliveredTo(s: System, steps: seq<Step>, fd: Fd)
    requires fd in s.conns
  {
    || SentWhole(steps, fd) == Responded(steps, fd)
    || (s.conns[fd].armed && s.conns[fd].owed && SentWhole(steps, fd) + s.conns[fd].sendq == Responded(steps, fd))
  }

  // ----- the worker gets there by itself

  /** Steps of the worker that need no timeout and no signal. */
  predicate WorkerOnly(st: Step) {
    st == WkReturn(true) || st.WkPop? || st == WkDone || st.WkArms?
  }

  ghost predicate Leads(s: System, steps: seq<Step>, t: System)
    decreases |steps|
  {
    if steps == [] then s == t
    else WorkerOnly(steps[0]) && Enabled(s, steps[0]) && Leads(Apply(s, steps[0]), steps[1..], t)
  }

  /** The messages a sequence of steps takes, told from the front. */
  function PoppedOf(steps: seq<Step>): seq<Message>
    decreases |steps|
  {
    if steps == [] then [] else (if steps[0].WkPop? then [steps[0].m] else []) + PoppedOf(steps[1..])
  }

  lemma PoppedFirst(st: Step, steps: seq<Step>)
    ensures PoppedOf([st] + steps) == (if st.WkPop? then [st.m] else []) + PoppedOf(steps)
  {
    assert ([st] + steps)[1..] == steps;
  }

  lemma LeadsFirst(s: System, st: Step, steps: seq<Step>, t: System)
    requires WorkerOnly(st) && Enabled(s, st) && Leads(Apply(s, st), steps, t)
    ensures Leads(s, [st] + steps, t)
  {
    assert ([st] + steps)[1..] == steps;
  }

  lemma {:induction false} DrainEmpties(s: System) returns (steps: seq<Step>, t: System)
    requires s.worker == WkDrain
    ensures Leads(s, steps, t) && t.mq == [] && PoppedOf(steps) == s.mq
    decreases |s.mq|
  {
    if s.mq == [] {
      steps, t := [], s;
      return;
    }
    hide Leads, PoppedOf, Apply, Enabled;
    DrainOne(s);
    var rest;
    rest, t := DrainEmpties(Apply(Apply(s, WkPop(s.mq[0])), WkDone));
    steps := [WkPop(s.mq[0])] + ([WkDone] + rest);
    DrainTwo(s, rest, t);
  }

  lemma DrainTwo(s: System, rest: seq<Step>, t: System)
    requires s.worker == WkDrain && s.mq != [] && Enabled(s, WkPop(s.mq[0]))
    requires Enabled(Apply(s, WkPop(s.mq[0])), WkDone)
    requires Leads(Apply(Apply(s, WkPop(s.mq[0])), WkDone), rest, t) && PoppedOf(rest) == s.mq[1..]
    ensures var steps := [WkPop(s.mq[0])] + ([WkDone] + rest); Leads(s, steps, t) && PoppedOf(steps) == s.mq
  {
    hide Leads, PoppedOf, Apply, Enabled;
    var pop := WkPop(s.mq[0]);
    LeadsFirst(Apply(s, pop), WkDone, rest, t);
    LeadsFirst(s, pop, [WkDone] + rest, t);
    PoppedFirst(WkDone, rest);
    PoppedFirst(pop, [WkDone] + rest);
    assert [] + PoppedOf(rest) == PoppedOf(rest) && s.mq == [s.mq[0]] + s.mq[1..];
  }

  lemma DrainOne(s: System)
    requires s.worker == WkDrain && s.mq != []
    ensures Enabled(s, WkPop(s.mq[0]))
    ensures var handling := Apply(s, WkPop(s.mq[0]));
            && Enabled(handling, WkDone)
            && Apply(handling, WkDone).worker == WkDrain && Apply(handling, WkDone).mq == s.mq[1..]
  {
  }

  lemma BusyEmpties(s: System) returns (steps: seq<Step>, t: System)
    requires MessageWakeup(s) && s.io.IoWait? && s.worker.WkBusy? && s.mq != []
    ensures Leads(s, steps, t) && t.mq == [] && PoppedOf(steps) == s.mq
  {
    hide Leads, PoppedOf;
    var after := Apply(s, WkDone);
    if s.worker.timers {
      steps, t := DrainEmpties(Apply(after, WkReturn(true)));
      LeadsFirst(after, WkReturn(true), steps, t);
      PoppedFirst(WkReturn(true), steps);
      steps := [WkReturn(true)] + steps;
    } else {
      steps, t := DrainEmpties(after);
    }
    LeadsFirst(s, WkDone, steps, t);
    PoppedFirst(WkDone, steps);
    steps := [WkDone] + steps;
  }

  /** From every state of a run with the I/O thread asleep the worker alone takes all that waits, in order. */
  lemma WorkerEmpties(states: seq<System>, steps: seq<Step>, k: nat) returns (rest: seq<Step>, t: System)
    requires Run(states, steps) && k <= |steps| && states[k].io.IoWait?
    ensures Leads(states[k], rest, t) && t.mq == [] && PoppedOf(rest) == states[k].mq
  {
    NoLostWakeup(states, steps, k);
    var s := states[k];
    if s.mq == [] {
      return [], s;
    }
    match s.worker
    case WkDrain =>
      rest, t := DrainEmpties(s);
    case WkWait =>
      rest, t := DrainEmpties(Apply(s, WkReturn(true)));
      LeadsFirst(s, WkReturn(true), rest, t);
      PoppedFirst(WkReturn(true), rest);
      rest := [WkReturn(true)] + rest;
    case WkBusy(timers) =>
      rest, t := BusyEmpties(s);
    case WkArm(fd, timers) =>
      rest, t := BusyEmpties(Apply(s, WkArms(true)));
      LeadsFirst(s, WkArms(true), rest, t);
      PoppedFirst(WkArms(true), rest);
      rest := [WkArms(true)] + rest;
  }
}
