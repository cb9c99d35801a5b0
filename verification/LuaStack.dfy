/**
 The Lua stack, as far as the codec and the calls into Lua use it (Lua 5.1 Reference
 Manual, section 3.7). The top is the last element.
 */
module LuaStack {
  import opened LuaValues

  datatype NextResult = More | End | Invalid

  datatype MaybeKey = NoKey | SomeKey(k: Key)

  function AsKey(v: Lua): MaybeKey {
    match v
    case String(s) => SomeKey(Name(s))
    case Number(n) => SomeKey(Index(n))
    case _ => NoKey
  }

  /** Tables hold no key twice and no nil, at any depth. */
  ghost predicate Proper(v: Lua) {
    v.Table? ==>
      && (forall i, j :: 0 <= i < j < |v.pairs| ==> v.pairs[i].key != v.pairs[j].key)
      && (forall i :: 0 <= i < |v.pairs| ==> v.pairs[i].value != Nil && Proper(v.pairs[i].value))
  }

  class LuaState {
    var stack: seq<Lua>

    constructor ()
      ensures stack == []
    {
      stack := [];
    }

    ghost function Top(): Lua
      requires stack != []
      reads this
    {
      stack[|stack| - 1]
    }

    method Push(v: Lua)
      modifies this
      ensures stack == old(stack) + [v]
    {
      stack := stack + [v];
    }

    method Pop(n: nat)
      requires n <= |stack|
      modifies this
      ensures stack == old(stack)[..|old(stack)| - n]
    {
      stack := stack[..|stack| - n];
    }

    /** `lua_settable(L, -3)`: the table below key and value is updated, both are popped. */
    method SetTable()
      requires |stack| >= 3 && stack[|stack| - 3].Table? && AsKey(stack[|stack| - 2]).SomeKey?
      modifies this
      ensures var n := |old(stack)|;
              stack == old(stack)[..n - 3]
                       + [Table(Set(old(stack)[n - 3].pairs, AsKey(old(stack)[n - 2]).k, old(stack)[n - 1]))]
    {
      var n := |stack|;
      var table := Table(Set(stack[n - 3].pairs, AsKey(stack[n - 2]).k, stack[n - 1]));
      stack := stack[..n - 3] + [table];
    }

    /** `lua_gettable(L, -2)`: the key on top is replaced by its value in the table below. */
    method GetTable()
      requires |stack| >= 2 && stack[|stack| - 2].Table? && AsKey(stack[|stack| - 1]).SomeKey?
      modifies this
      ensures var n := |old(stack)|;
              stack == old(stack)[..n - 1] + [Get(old(stack)[n - 2].pairs, AsKey(old(stack)[n - 1]).k)]
    {
      var n := |stack|;
      stack := stack[..n - 1] + [Get(stack[n - 2].pairs, AsKey(stack[n - 1]).k)];
    }

    /** `lua_next`: pops a key and pushes the pair after it; a value that is no key of the table is an error. */
    method Next(index: nat) returns (r: NextResult)
      requires index < |stack| - 1 && stack[index].Table?
      modifies this
      ensures var pairs, base, key := old(stack)[index].pairs, old(stack)[..|old(stack)| - 1], old(Top());
              var j := After(pairs, key);
              if j < 0 then r == Invalid
              else if j == |pairs| then r == End && stack == base
              else r == More && stack == base + [KeyOf(pairs[j].key), pairs[j].value]
    {
      var pairs, key := stack[index].pairs, stack[|stack| - 1];
      var j := After(pairs, key);
      if j < 0 {
        return Invalid;
      }
      stack := stack[..|stack| - 1];
      if j == |pairs| {
        return End;
      }
      stack := stack + [KeyOf(pairs[j].key), pairs[j].value];
      return More;
    }
  }

  /** The position after a key, zero after nil, negative for what is no key of the table. */
  function After(pairs: seq<Pair>, key: Lua): (j: int)
    ensures j <= |pairs|
  {
    if key == Nil then 0
    else
      match AsKey(key)
      case NoKey => -1
      case SomeKey(k) =>
        var p := Position(pairs, k);
        if p < |pairs| then p + 1 else -1
  }

  lemma AfterKey(table: Lua, j: nat)
    requires table.Table? && Proper(table) && j < |table.pairs|
    ensures After(table.pairs, KeyOf(table.pairs[j].key)) == j + 1
  {
    var p := Position(table.pairs, table.pairs[j].key);
    assert p == j;
  }
}
