/**
 The codec as it works: every step pushes to and pops from the Lua stack.
 */
module CodecStack {
  import opened LuaValues
  import opened LuaStack
  import opened CodecSpec
  import opened CodecTheorems

  // ----- decoding

  /** The top table gained one entry, and nothing below it changed. */
  ghost predicate SetInTop(before: seq<Lua>, after: seq<Lua>, key: Key, value: Lua) {
    && before != [] && before[|before| - 1].Table?
    && after == before[..|before| - 1] + [Table(Set(before[|before| - 1].pairs, key, value))]
  }

  lemma TopGained(base: seq<Lua>, pairs: seq<Pair>, after: seq<Lua>, key: Key, value: Lua)
    requires SetInTop(base + [Table(pairs)], after, key, value)
    ensures after == base + [Table(Set(pairs, key, value))]
  {
    hide Set;
    assert (base + [Table(pairs)])[..|base|] == base;
  }

  lemma DecodedIsSomething(S: Schema, ft: FieldType, it: Item)
    requires TypedItem(S, ft, it)
    ensures DecodeItem(S, ft, it) != Nil
  {
  }

  lemma OneMoreItem(S: Schema, ft: FieldType, items: seq<Item>, i: nat)
    requires i < |items| && forall j :: 0 <= j < |items| ==> TypedItem(S, ft, items[j])
    ensures Set(DecodeItems(S, ft, items[..i]), Index(i), DecodeItem(S, ft, items[i])) == DecodeItems(S, ft, items[..i + 1])
  {
    assert items[..i + 1][..i] == items[..i];
    DecodedIsSomething(S, ft, items[i]);
    hide DecodeItem;
    SetNew(DecodeItems(S, ft, items[..i]), Index(i), DecodeItem(S, ft, items[i]));
  }

  lemma OneMoreField(S: Schema, fields: seq<Field>, vals: seq<FieldVal>, i: nat)
    requires GoodDescriptor(S, fields) && i < |fields| == |vals|
    requires forall j :: 0 <= j < |vals| ==> TypedField(S, fields[j], vals[j])
    ensures Set(DecodeFields(S, fields[..i], vals[..i]), Name(fields[i].name), DecodeField(S, fields[i], vals[i]))
            == DecodeFields(S, fields[..i + 1], vals[..i + 1])
  {
    assert fields[..i + 1][..i] == fields[..i] && vals[..i + 1][..i] == vals[..i];
    if !fields[i].repeated && IsSet(fields[i], vals[i]) {
      DecodedIsSomething(S, fields[i].ftype, vals[i].item);
    }
    assert DecodeField(S, fields[i], vals[i]) != Nil;
    hide DecodeField;
    SetNew(DecodeFields(S, fields[..i], vals[..i]), Name(fields[i].name), DecodeField(S, fields[i], vals[i]));
  }

  /** Fills in the default of a field that is not set. */
  method DecodeDefault(L: LuaState, f: Field)
    requires L.stack != [] && L.Top().Table?
    modifies L
    ensures SetInTop(old(L.stack), L.stack, Name(f.name), if f.repeated then Table([]) else DefaultLua(f.ftype))
  {
    L.Push(String(f.name));
    if f.repeated {
      L.Push(Table([]));
    } else {
      match f.ftype {
        case Of(Bool) => L.Push(Boolean(false));
        case Of(Text) => L.Push(String(""));
        case Of(_) => L.Push(Number(0));
        case Sub(_) => L.Push(Table([]));
      }
    }
    L.SetTable();
  }

  /** One element of a repeated field, under its index counted from zero. */
  method DecodeRepeated(L: LuaState, S: Schema, ft: FieldType, it: Item, index: nat) returns (rc: bool)
    requires GoodSchema(S) && TypedItem(S, ft, it) && L.stack != [] && L.Top().Table?
    modifies L
    ensures rc && SetInTop(old(L.stack), L.stack, Index(index), DecodeItem(S, ft, it))
    decreases it, 1
  {
    L.Push(Number(index));
    match ft {
      case Of(_) =>
        L.Push(ToLua(it.v));
        rc := true;
      case Sub(ty) =>
        L.Push(Table([]));
        rc := DecodeDescriptor(L, S, ty, it.m);
    }
    L.SetTable();
  }

  /** A singular field that is set; the branch for one that is not is never taken. */
  method DecodeSimple(L: LuaState, S: Schema, f: Field, fv: FieldVal) returns (rc: bool)
    requires GoodSchema(S) && TypedField(S, f, fv) && !f.repeated && IsSet(f, fv)
    requires L.stack != [] && L.Top().Table?
    modifies L
    ensures rc && SetInTop(old(L.stack), L.stack, Name(f.name), DecodeField(S, f, fv))
    decreases fv, 2
  {
    L.Push(String(f.name));
    match f.ftype {
      case Of(_) =>
        if !IsSet(f, fv) {
          assert false;
        }
        L.Push(ToLua(fv.item.v));
        rc := true;
      case Sub(ty) =>
        L.Push(Table([]));
        rc := DecodeDescriptor(L, S, ty, fv.item.m);
    }
    L.SetTable();
  }

  method DecodeOneField(L: LuaState, S: Schema, f: Field, fv: FieldVal) returns (rc: bool)
    requires GoodSchema(S) && TypedField(S, f, fv) && (f.repeated || IsSet(f, fv))
    requires L.stack != [] && L.Top().Table?
    modifies L
    ensures rc && SetInTop(old(L.stack), L.stack, Name(f.name), DecodeField(S, f, fv))
    decreases fv, 3
  {
    hide DecodeItem, DecodeItems, Set, GoodSchema, TypedItem;
    if f.repeated {
      L.Push(String(f.name));
      L.Push(Table([]));
      rc := DecodeElements(L, S, f.ftype, fv.items);
      L.SetTable();
    } else {
      rc := DecodeSimple(L, S, f, fv);
    }
  }

  method DecodeElement(L: LuaState, S: Schema, ft: FieldType, items: seq<Item>, i: nat, ghost base: seq<Lua>) returns (rc: bool)
    requires GoodSchema(S) && (forall j :: 0 <= j < |items| ==> TypedItem(S, ft, items[j])) && i < |items|
    requires L.stack == base + [Table(DecodeItems(S, ft, items[..i]))]
    modifies L
    ensures rc && L.stack == base + [Table(DecodeItems(S, ft, items[..i + 1]))]
    decreases items, 1
  {
    hide DecodeItem, DecodeItems, Set, GoodSchema, SetInTop;
    OneMoreItem(S, ft, items, i);
    rc := DecodeRepeated(L, S, ft, items[i], i);
    TopGained(base, DecodeItems(S, ft, items[..i]), L.stack, Index(i), DecodeItem(S, ft, items[i]));
  }

  /** The loop over the elements of a repeated field. */
  method DecodeElements(L: LuaState, S: Schema, ft: FieldType, items: seq<Item>) returns (rc: bool)
    requires GoodSchema(S) && forall j :: 0 <= j < |items| ==> TypedItem(S, ft, items[j])
    requires L.stack != [] && L.Top() == Table([])
    modifies L
    ensures rc && L.stack == old(L.stack)[..|old(L.stack)| - 1] + [Table(DecodeItems(S, ft, items))]
    decreases items, 2
  {
    assert DecodeItems(S, ft, items[..0]) == [];
    hide DecodeItem, DecodeItems, Set, GoodSchema, TypedItem, SetInTop;
    ghost var base := L.stack[..|L.stack| - 1];
    rc := true;
    var i := 0;
    while rc && i < |items|
      invariant 0 <= i <= |items| && rc
      invariant L.stack == base + [Table(DecodeItems(S, ft, items[..i]))]
    {
      rc := DecodeElement(L, S, ft, items, i, base);
      i := i + 1;
    }
    assert items[..i] == items;
  }

  /** A singular field that is not set gets its default. */
  method DecodeFieldOrDefault(L: LuaState, S: Schema, f: Field, fv: FieldVal) returns (rc: bool)
    requires GoodSchema(S) && TypedField(S, f, fv)
    requires L.stack != [] && L.Top().Table?
    modifies L
    ensures rc && SetInTop(old(L.stack), L.stack, Name(f.name), DecodeField(S, f, fv))
    decreases fv, 4
  {
    hide TypedField, SetInTop;
    if !f.repeated && !IsSet(f, fv) {
      DecodeDefault(L, f);
      return true;
    }
    rc := DecodeOneField(L, S, f, fv);
  }

  method DecodeNextField(L: LuaState, S: Schema, fields: seq<Field>, vals: seq<FieldVal>, i: nat, ghost base: seq<Lua>)
    returns (rc: bool)
    requires GoodSchema(S) && GoodDescriptor(S, fields) && i < |fields| == |vals|
    requires forall j :: 0 <= j < |vals| ==> TypedField(S, fields[j], vals[j])
    requires L.stack == base + [Table(DecodeFields(S, fields[..i], vals[..i]))]
    modifies L
    ensures rc && L.stack == base + [Table(DecodeFields(S, fields[..i + 1], vals[..i + 1]))]
    decreases vals, 5
  {
    hide DecodeFields, DecodeField, Set, GoodDescriptor, GoodSchema, SetInTop;
    OneMoreField(S, fields, vals, i);
    rc := DecodeFieldOrDefault(L, S, fields[i], vals[i]);
    TopGained(base, DecodeFields(S, fields[..i], vals[..i]), L.stack, Name(fields[i].name), DecodeField(S, fields[i], vals[i]));
  }

  /**
   Decoding fills the empty table on top of the stack with every field and leaves
   everything below it, and the height, as they were. It cannot fail.
   */
  method DecodeDescriptor(L: LuaState, S: Schema, ty: string, m: Msg) returns (rc: bool)
    requires GoodSchema(S) && TypedMsg(S, ty, m)
    requires L.stack != [] && L.Top() == Table([])
    modifies L
    ensures rc && L.stack == old(L.stack)[..|old(L.stack)| - 1] + [DecodeMsg(S, ty, m)]
    decreases m, 0
  {
    var fields := S[ty];
    ghost var base := L.stack[..|L.stack| - 1];
    assert GoodDescriptor(S, fields);
    assert DecodeFields(S, fields[..0], m.vals[..0]) == [];
    hide DecodeFields, DecodeField, Set, GoodDescriptor, GoodSchema, TypedField, SetInTop;
    var i := 0;
    while i < |fields|
      invariant 0 <= i <= |fields|
      invariant L.stack == base + [Table(DecodeFields(S, fields[..i], m.vals[..i]))]
    {
      var ok := DecodeNextField(L, S, fields, m.vals, i, base);
      if !ok {
        return false;
      }
      i := i + 1;
    }
    assert fields[..i] == fields && m.vals[..i] == m.vals;
    return true;
  }

  // ----- encoding

  /** After success the stack is as before; after a failure it may carry stray values on top. */
  ghost predicate Leaves<T>(before: seq<Lua>, after: seq<Lua>, out: Outcome<T>) {
    match out
    case Ok(_) => after == before
    case Fail(junk) => after == before + junk
    case _ => true
  }

  function Prepend<T>(done: seq<T>, out: Outcome<seq<T>>): Outcome<seq<T>> {
    match out
    case Ok(rest) => Ok(done + rest)
    case Fail(junk) => Fail(junk)
    case Exception => Exception
    case LuaError => LuaError
  }

  lemma PrependNone<T>(o: Outcome<seq<T>>)
    ensures Prepend([], o) == o
  {
    if o.Ok? {
      assert [] + o.v == o.v;
    }
  }

  lemma PrependOne<T>(done: seq<T>, x: T, o: Outcome<seq<T>>)
    ensures Prepend(done, Prepend([x], o)) == Prepend(done + [x], o)
  {
    if o.Ok? {
      assert done + ([x] + o.v) == done + [x] + o.v;
    }
  }

  lemma PrependFailure<T>(done: seq<T>, o: Outcome<seq<T>>)
    ensures !o.Ok? ==> Prepend(done, o) == o
    ensures o == Ok([]) ==> Prepend(done, o) == Ok(done)
  {
    assert done + [] == done;
  }

  lemma ItemsFrom(S: Schema, env: Env, ft: FieldType, table: Lua, j: nat)
    requires GoodSchema(S) && (ft.Sub? ==> ft.typename in S) && table.Table? && j <= |table.pairs|
    ensures j == |table.pairs| ==> EncodeItems(S, env, ft, table, j) == Ok([])
    ensures j < |table.pairs| && table.pairs[j].value != Nil ==>
              EncodeItems(S, env, ft, table, j) ==
              match EncodeItem(S, env, ft, table.pairs[j].value)
              case Ok(it) => Prepend([it], EncodeItems(S, env, ft, table, j + 1))
              case Fail(junk) =>
                if junk != [] then LuaError
                else if j + 1 < |table.pairs| then Fail([table, KeyOf(table.pairs[j + 1].key)])
                else Fail([])
              case Exception => Exception
              case LuaError => LuaError
  {
  }

  lemma FieldsFrom(S: Schema, env: Env, fields: seq<Field>, table: Lua, i: nat)
    requires GoodSchema(S) && GoodDescriptor(S, fields) && table.Table? && i <= |fields|
    ensures i == |fields| ==> EncodeFields(S, env, fields, table, i) == Ok([])
    ensures i < |fields| ==>
              EncodeFields(S, env, fields, table, i) ==
              match EncodeField(S, env, fields[i], table)
              case Ok(fv) => Prepend([fv], EncodeFields(S, env, fields, table, i + 1))
              case Fail(junk) => Fail(junk)
              case Exception => Exception
              case LuaError => LuaError
  {
  }

  /** The value on top, which is not nil, as an element or a singular field. */
  method EncodeValue(L: LuaState, S: Schema, env: Env, ft: FieldType) returns (out: Outcome<Item>)
    requires GoodSchema(S) && (ft.Sub? ==> ft.typename in S) && L.stack != [] && Proper(L.Top())
    modifies L
    ensures out == EncodeItem(S, env, ft, old(L.Top())) && Leaves(old(L.stack), L.stack, out)
    decreases L.Top(), 4, 0
  {
    match ft
    case Of(t) =>
      var c := FromLua(env, t, L.stack[|L.stack| - 1]);
      out := if c.Threw? then Exception else Ok(Plain(c.v));
    case Sub(ty) =>
      var r := EncodeDescriptor(L, S, env, ty);
      match r {
        case Ok(m) => out := Ok(Tree(m));
        case Fail(junk) => out := Fail(junk);
        case Exception => out := Exception;
        case LuaError => out := LuaError;
      }
  }

  /** What the element loop leaves above the table it walks, before that table is popped. */
  ghost predicate LeavesAboveTable(before: seq<Lua>, after: seq<Lua>, out: Outcome<seq<Item>>) {
    match out
    case Ok(_) => after == before
    case Fail(junk) =>
      if junk == [] then after == before
      else before != [] && after != [] && after[..|after| - 1] == before[..|before| - 1] + junk
    case _ => true
  }

  /** A failed element: its value is popped, and the next pair is fetched before the failure is noticed. */
  method EncodeGivesUp(L: LuaState, ghost before: seq<Lua>, junk: seq<Lua>, ghost j: nat) returns (out: Outcome<seq<Item>>)
    requires before != [] && before[|before| - 1].Table? && Proper(before[|before| - 1])
    requires var pairs := before[|before| - 1].pairs;
             j < |pairs| && L.stack == before + [KeyOf(pairs[j].key), pairs[j].value] + junk
    requires Stray(junk)
    modifies L
    ensures LeavesAboveTable(before, L.stack, out)
    ensures var table := before[|before| - 1];
            out == if junk != [] then LuaError
                   else if j + 1 < |table.pairs| then Fail([table, KeyOf(table.pairs[j + 1].key)])
                   else Fail([])
  {
    var index := |L.stack| - |junk| - 3;
    assert index == |before| - 1;
    var table := L.stack[index];
    L.Pop(1);
    AfterKey(table, j);
    if junk == [] {
      assert L.stack == before + [KeyOf(table.pairs[j].key)];
    } else {
      assert L.Top() == junk[0];
    }
    var n := L.Next(index);
    match n
    case Invalid => out := LuaError;
    case End => out := Fail([]);
    case More =>
      var key := L.stack[|L.stack| - 2];
      out := Fail([table, key]);
      assert L.stack[..|L.stack| - 1] == before[..|before| - 1] + [table, key];
  }

  ghost function KeyBefore(table: Lua, j: nat): Lua
    requires table.Table? && j <= |table.pairs|
  {
    if j == 0 then Nil else KeyOf(table.pairs[j - 1].key)
  }

  lemma ProperInside(table: Lua, j: nat)
    requires table.Table? && Proper(table) && j < |table.pairs|
    ensures table.pairs[j].value != Nil && Proper(table.pairs[j].value)
  {
  }

  /** Fetches the pair after the key on top. */
  method FetchPair(L: LuaState, index: nat, ghost j: nat) returns (more: bool)
    requires index == |L.stack| - 2 && L.stack[index].Table? && Proper(L.stack[index])
    requires j <= |L.stack[index].pairs| && L.Top() == KeyBefore(L.stack[index], j)
    modifies L
    ensures var before, table := old(L.stack)[..index + 1], old(L.stack)[index];
            && (more <==> j < |table.pairs|)
            && L.stack == if more then before + [KeyOf(table.pairs[j].key), table.pairs[j].value] else before
  {
    if j > 0 {
      AfterKey(L.stack[index], j - 1);
    }
    var n := L.Next(index);
    more := n.More?;
  }

  /** The loop over the table of a repeated field, which is on top. */
  method EncodeElements(L: LuaState, S: Schema, env: Env, ft: FieldType) returns (out: Outcome<seq<Item>>)
    requires GoodSchema(S) && (ft.Sub? ==> ft.typename in S) && L.stack != [] && L.Top().Table? && Proper(L.Top())
    modifies L
    ensures out == EncodeItems(S, env, ft, old(L.Top()), 0) && LeavesAboveTable(old(L.stack), L.stack, out)
    decreases L.Top(), 0, 0
  {
    hide EncodeItem, EncodeItems, GoodSchema, Prepend, Proper, Stray;
    var table, index := L.stack[|L.stack| - 1], |L.stack| - 1;
    L.Push(Nil);
    var items := [];
    ghost var j := 0;
    PrependNone(EncodeItems(S, env, ft, table, 0));
    while true
      invariant 0 <= j <= |table.pairs|
      invariant L.stack == old(L.stack) + [KeyBefore(table, j)]
      invariant EncodeItems(S, env, ft, table, 0) == Prepend(items, EncodeItems(S, env, ft, table, j))
      decreases |table.pairs| - j
    {
      ItemsFrom(S, env, ft, table, j);
      PrependFailure(items, EncodeItems(S, env, ft, table, j));
      assert L.stack[..index + 1] == old(L.stack);
      var more := FetchPair(L, index, j);
      if !more {
        return Ok(items);
      }
      ProperInside(table, j);
      ItemLeavesLittle(S, env, ft, table.pairs[j].value);
      var e := EncodeValue(L, S, env, ft);
      match e {
        case Ok(it) =>
          L.Pop(1);
          PrependOne(items, it, EncodeItems(S, env, ft, table, j + 1));
          items := items + [it];
          j := j + 1;
        case Fail(junk) =>
          out := EncodeGivesUp(L, old(L.stack), junk, j);
          return;
        case Exception => return Exception;
        case LuaError => return LuaError;
      }
    }
  }

  /** One field of the table on top. */
  /** Popping one value under stray values takes the topmost of all. */
  lemma PopBelow(base: seq<Lua>, v: Lua, junk: seq<Lua>)
    ensures (base + [v] + junk)[..|base| + |junk|] == base + ([v] + junk)[..|junk|]
  {
  }

  lemma FieldOf(S: Schema, env: Env, f: Field, table: Lua)
    requires GoodSchema(S) && (f.ftype.Sub? ==> f.ftype.typename in S) && table.Table? && Proper(table)
    ensures var v, out := Get(table.pairs, Name(f.name)), EncodeField(S, env, f, table);
            && Proper(v) && (v != Nil ==> v < table)
            && if v == Nil || (f.repeated && !v.Table?) then out == Ok(Unset(f))
               else if f.repeated then
                 match EncodeItems(S, env, f.ftype, v, 0)
                 case Ok(its) => out == Ok(Many(its))
                 case Fail(junk) => out == Fail(junk)
                 case Exception => out == Exception
                 case LuaError => out == LuaError
               else
                 match EncodeItem(S, env, f.ftype, v)
                 case Ok(it) => out == Ok(One(it))
                 case Fail(junk) => out == Fail(([v] + junk)[..|junk|])
                 case Exception => out == Exception
                 case LuaError => out == LuaError
  {
    hide EncodeItem, EncodeItems, GoodSchema;
  }

  method EncodeOneField(L: LuaState, S: Schema, env: Env, f: Field) returns (out: Outcome<FieldVal>)
    requires GoodSchema(S) && (f.ftype.Sub? ==> f.ftype.typename in S)
    requires L.stack != [] && L.Top().Table? && Proper(L.Top())
    modifies L
    ensures out == EncodeField(S, env, f, old(L.Top())) && Leaves(old(L.stack), L.stack, out)
    decreases L.Top(), 1, 0
  {
    FieldOf(S, env, f, L.Top());
    hide EncodeItem, EncodeItems, EncodeField, GoodSchema, Stray, Get;
    L.Push(String(f.name));
    L.GetTable();
    ghost var before := L.stack;
    assert before[..|before| - 1] == old(L.stack);
    var v := L.stack[|L.stack| - 1];
    assert before == old(L.stack) + [v];
    out := Ok(Unset(f));
    if f.repeated && v.Table? {
      ItemsLeaveLittle(S, env, f.ftype, v, 0);
      var r := EncodeElements(L, S, env, f.ftype);
      match r {
        case Ok(its) => out := Ok(Many(its));
        case Fail(junk) => out := Fail(junk);
        case Exception => return Exception;
        case LuaError => return LuaError;
      }
    } else if !f.repeated && v != Nil {
      ItemLeavesLittle(S, env, f.ftype, v);
      var r := EncodeValue(L, S, env, f.ftype);
      match r {
        case Ok(it) => out := Ok(One(it));
        case Fail(junk) =>
          out := Fail(([v] + junk)[..|junk|]);
          PopBelow(old(L.stack), v, junk);
        case Exception => return Exception;
        case LuaError => return LuaError;
      }
    }
    L.Pop(1);
  }

  /**
   Encoding reads the table on top of the stack. On success the whole stack is as it was;
   a failure leaves nothing, or exactly two stray values.
   */
  method EncodeDescriptor(L: LuaState, S: Schema, env: Env, ty: string) returns (out: Outcome<Msg>)
    requires GoodSchema(S) && ty in S && L.stack != [] && Proper(L.Top())
    modifies L
    ensures out == EncodeMsg(S, env, ty, old(L.Top())) && Leaves(old(L.stack), L.stack, out)
    ensures out.Fail? ==> |out.junk| in {0, 2}
    decreases L.Top(), 3, 0
  {
    ghost var v := L.Top();
    MsgLeavesLittle(S, env, ty, v);
    if !L.stack[|L.stack| - 1].Table? {
      return Fail([]);
    }
    var fields := S[ty];
    assert GoodDescriptor(S, fields);
    hide EncodeField, EncodeFields, GoodSchema, Prepend, GoodDescriptor;
    PrependNone(EncodeFields(S, env, fields, v, 0));
    var vals := [];
    var i := 0;
    while i < |fields|
      invariant 0 <= i <= |fields| && L.stack == old(L.stack)
      invariant EncodeFields(S, env, fields, v, 0) == Prepend(vals, EncodeFields(S, env, fields, v, i))
    {
      FieldsFrom(S, env, fields, v, i);
      PrependFailure(vals, EncodeFields(S, env, fields, v, i));
      var r := EncodeOneField(L, S, env, fields[i]);
      match r {
        case Ok(fv) =>
          PrependOne(vals, fv, EncodeFields(S, env, fields, v, i + 1));
          vals := vals + [fv];
        case Fail(junk) => return Fail(junk);
        case Exception => return Exception;
        case LuaError => return LuaError;
      }
      i := i + 1;
    }
    FieldsFrom(S, env, fields, v, i);
    PrependFailure(vals, EncodeFields(S, env, fields, v, i));
    return Ok(Msg(vals));
  }
}
