/**
 Protected calls into Lua and the events built on them: what each leaves on the stack.
 */
module LuaCalls {
  import opened LuaValues
  import opened LuaStack

  /** How the called function ends. */
  datatype CallResult = Returns(v: Lua) | Raises(v: Lua)

  /** A function that was called, and what it was given. */
  datatype Call = Call(callee: Lua, args: seq<Lua>)

  /** `lua_insert`: moves the top down to position `i`. */
  method InsertAt(L: LuaState, i: nat)
    requires i < |L.stack|
    modifies L
    ensures var s := old(L.stack); L.stack == s[..i] + [s[|s| - 1]] + s[i..|s| - 1]
  {
    var s := L.stack;
    L.stack := s[..i] + [s[|s| - 1]] + s[i..|s| - 1];
  }

  /** `lua_pcall` with one result: function and arguments are replaced by the result or the error. */
  method RawCall(L: LuaState, args: nat, result: CallResult) returns (call: Call)
    requires |L.stack| >= args + 1
    modifies L
    ensures L.stack == old(L.stack)[..|old(L.stack)| - (args + 1)] + [result.v]
    ensures var n := |old(L.stack)|; call == Call(old(L.stack)[n - args - 1], old(L.stack)[n - args..])
  {
    call := Call(L.stack[|L.stack| - args - 1], L.stack[|L.stack| - args..]);
    L.Pop(args + 1);
    L.Push(result.v);
  }

  /**
   Whatever is below function and arguments stays; these are removed, nothing is added,
   with and without a traceback handler, whether the value is a function or not, and
   whether it returns or raises. A function is called once, with exactly these arguments.
   */
  method PCall(L: LuaState, args: nat, traceback: Lua, result: CallResult) returns (ok: bool, calls: seq<Call>)
    requires |L.stack| >= args + 1
    modifies L
    ensures L.stack == old(L.stack)[..|old(L.stack)| - (args + 1)]
    ensures ok <==> old(L.stack)[|old(L.stack)| - (args + 1)].Function? && result.Returns?
    ensures var s, n := old(L.stack), |old(L.stack)| - args;
            calls == if s[n - 1].Function? then [Call(s[n - 1], s[n..])] else []
  {
    var func := |L.stack| - (args + 1);
    ghost var below := L.stack[..func];
    if !L.stack[func].Function? {
      L.Pop(args + 1);
      return false, [];
    }
    ghost var given := L.stack[func + 1..];
    L.Push(traceback);
    var handled := L.stack[|L.stack| - 1].Function?;
    if handled {
      InsertAt(L, func);
    } else {
      L.Pop(1);
    }
    assert L.stack[|L.stack| - args..] == given;
    var call := RawCall(L, args, result);
    calls := [call];
    assert L.stack == below + (if handled then [traceback] else []) + [result.v];
    if result.Raises? {
      L.Pop(if handled then 2 else 1);
      assert L.stack == below;
      return false, calls;
    }
    L.Pop(1);
    if handled {
      L.Pop(1);
    }
    assert L.stack == below;
    return true, calls;
  }

  /**
   One message off the queue: a package that decodes, with its handler if registered; a
   package that does not; a connection gained or lost; or a kind nobody knows.
   */
  datatype Delivery =
    | Decoded(table: Lua, registered: bool, handler: Lua, fd: int, msgid: int, result: CallResult)
    | Undecodable
    | Connection(handler: Lua, fd: int, result: CallResult)
    | Illegal

  /** The decoded table is on top; it stays there, and a value that is no handler stays too. */
  method EventMessage(L: LuaState, d: Delivery, traceback: Lua) returns (ok: bool, calls: seq<Call>)
    requires L.stack != [] && d.Decoded?
    modifies L
    ensures L.stack == old(L.stack) + if d.registered && old(L.Top()).Table? && !d.handler.Function? then [d.handler] else []
    ensures ok <==> d.registered && old(L.Top()).Table? && d.handler.Function? && d.result.Returns?
    ensures calls == if d.registered && old(L.Top()).Table? && d.handler.Function?
                     then [Call(d.handler, [Number(d.fd), Number(d.msgid), old(L.Top())])] else []
  {
    if !d.registered {
      return false, [];
    }
    var t := L.stack[|L.stack| - 1];
    if !t.Table? {
      return false, [];
    }
    L.Push(d.handler);
    if !d.handler.Function? {
      return false, [];
    }
    L.Push(Number(d.fd));
    L.Push(Number(d.msgid));
    L.Push(t);
    assert L.stack[|L.stack| - 3..] == [Number(d.fd), Number(d.msgid), t];
    ok, calls := PCall(L, 3, traceback, d.result);
  }

  /** The handler of a connection gained or lost is a global; one that is no function stays on the stack. */
  method EventConnection(L: LuaState, handler: Lua, fd: int, traceback: Lua, result: CallResult) returns (ok: bool, calls: seq<Call>)
    modifies L
    ensures L.stack == old(L.stack) + if handler.Function? then [] else [handler]
    ensures ok <==> handler.Function? && result.Returns?
    ensures calls == if handler.Function? then [Call(handler, [Number(fd)])] else []
  {
    L.Push(handler);
    if !handler.Function? {
      return false, [];
    }
    L.Push(Number(fd));
    ok, calls := PCall(L, 1, traceback, result);
  }

  /** What one message leaves behind: its decoded table, and a handler that is none. */
  function Strays(d: Delivery): seq<Lua> {
    match d
    case Decoded(table, registered, handler, _, _, _) =>
      [table] + if registered && !handler.Function? then [handler] else []
    case Connection(handler, _, _) => if handler.Function? then [] else [handler]
    case _ => []
  }

  function AllStrays(ds: seq<Delivery>): seq<Lua> {
    if ds == [] then [] else AllStrays(ds[..|ds| - 1]) + Strays(ds[|ds| - 1])
  }

  /** The handler one message reaches, if it has one, and what it is told. */
  function CallsFor(d: Delivery): seq<Call> {
    match d
    case Decoded(table, registered, handler, fd, msgid, _) =>
      if registered && handler.Function? then [Call(handler, [Number(fd), Number(msgid), table])] else []
    case Connection(handler, fd, _) => if handler.Function? then [Call(handler, [Number(fd)])] else []
    case _ => []
  }

  function AllCalls(ds: seq<Delivery>): seq<Call> {
    if ds == [] then [] else AllCalls(ds[..|ds| - 1]) + CallsFor(ds[|ds| - 1])
  }

  method Deliver(L: LuaState, d: Delivery, traceback: Lua) returns (calls: seq<Call>)
    requires d.Decoded? ==> d.table.Table?
    modifies L
    ensures L.stack == old(L.stack) + Strays(d) && calls == CallsFor(d)
  {
    var ok;
    match d
    case Decoded(table, _, _, _, _, _) =>
      L.Push(table);
      ok, calls := EventMessage(L, d, traceback);
    case Connection(handler, fd, result) =>
      ok, calls := EventConnection(L, handler, fd, traceback, result);
    case Undecodable =>
      calls := [];
    case Illegal =>
      calls := [];
  }

  /** The worker draining the queue: what was on the stack stays, and what each message leaves piles up on it. */
  method DeliverAll(L: LuaState, ds: seq<Delivery>, traceback: Lua) returns (calls: seq<Call>)
    requires forall i :: 0 <= i < |ds| ==> (ds[i].Decoded? ==> ds[i].table.Table?)
    modifies L
    ensures L.stack == old(L.stack) + AllStrays(ds) && calls == AllCalls(ds)
  {
    hide Strays, CallsFor;
    calls := [];
    var i := 0;
    while i < |ds|
      invariant 0 <= i <= |ds| && L.stack == old(L.stack) + AllStrays(ds[..i]) && calls == AllCalls(ds[..i])
    {
      var more := Deliver(L, ds[i], traceback);
      calls := calls + more;
      assert ds[..i + 1][..i] == ds[..i];
      i := i + 1;
    }
    assert ds[..i] == ds;
  }

  function Decodes(ds: seq<Delivery>): nat {
    if ds == [] then 0 else Decodes(ds[..|ds| - 1]) + if ds[|ds| - 1].Decoded? then 1 else 0
  }

  /** The handler that is looked up, if any, is a function. */
  predicate Handled(d: Delivery) {
    match d
    case Decoded(_, registered, handler, _, _, _) => registered ==> handler.Function?
    case Connection(handler, _, _) => handler.Function?
    case _ => true
  }

  /** That is at least one value for every decoded message, and exactly one if and only if every handler is a function. */
  lemma {:induction false} OneStrayEach(ds: seq<Delivery>)
    ensures |AllStrays(ds)| >= Decodes(ds)
    ensures |AllStrays(ds)| == Decodes(ds) <==> forall i :: 0 <= i < |ds| ==> Handled(ds[i])
  {
    if ds != [] {
      var n := |ds| - 1;
      OneStrayEach(ds[..n]);
      if forall i :: 0 <= i < |ds| ==> Handled(ds[i]) {
        forall i | 0 <= i < n ensures Handled(ds[..n][i]) {
          assert Handled(ds[i]);
        }
      }
    }
  }

  /** A timer callback clears the whole stack afterwards, unless its reference is no function. */
  method EventTimer(L: LuaState, callback: Lua, ref: int, ctx: Lua, traceback: Lua, result: CallResult) returns (ok: bool, calls: seq<Call>)
    modifies L
    ensures L.stack == if callback.Function? then [] else old(L.stack) + [callback]
    ensures ok <==> callback.Function? && result.Returns?
    ensures calls == if callback.Function? then [Call(callback, [Number(ref), ctx])] else []
  {
    L.Push(callback);
    if !callback.Function? {
      return false, [];
    }
    L.Push(Number(ref));
    L.Push(ctx);
    assert L.stack[|L.stack| - 2..] == [Number(ref), ctx];
    ok, calls := PCall(L, 2, traceback, result);
    L.stack := [];
  }
}
