/**
 What a handler sees of a message, and what a message keeps of a table: both told value by
 value, without the translations themselves.
 */
module CodecMeaning {
  import opened LuaValues
  import opened Doubles
  import opened CodecSpec
  import opened CodecTheorems

  /** `t` is `s` up to the first NUL. */
  predicate IsCString(s: string, t: string) {
    t <= s && '\0' !in t && (|t| < |s| ==> s[|t|] == '\0')
  }

  lemma {:induction false} CStringIs(s: string)
    ensures IsCString(s, CString(s))
  {
    if s != [] && s[0] != '\0' {
      CStringIs(s[1..]);
      assert s == [s[0]] + s[1..];
    }
  }

  // ----- what a handler sees

  /** A boolean as a boolean, a number as the nearest double of its 64 bits, a text up to its first NUL. */
  ghost predicate ShowsScalar(v: Scalar, lua: Lua) {
    match v
    case Flag(b) => lua == Boolean(b)
    case Num(n) =>
      && lua.Number? && Nearest(if n < HALF64 then n else n - WORD64, lua.n)
      && (0 - MANTISSA < n < MANTISSA ==> lua.n == n)
    case Chars(s) => lua.String? && IsCString(s, lua.s)
  }

  ghost predicate Shows(S: Schema, ft: FieldType, it: Item, lua: Lua)
    requires TypedItem(S, ft, it)
    decreases it, 1
  {
    match ft
    case Of(_) => ShowsScalar(it.v, lua)
    case Sub(ty) => ShowsMsg(S, ty, it.m, lua)
  }

  /** An absent submessage is an empty table; a list is a table with one entry for each index from zero. */
  ghost predicate ShowsField(S: Schema, f: Field, fv: FieldVal, lua: Lua)
    requires TypedField(S, f, fv)
    decreases fv, 2
  {
    match fv
    case Absent => lua == Table([])
    case One(it) => Shows(S, f.ftype, it, lua)
    case Many(items) =>
      && lua.Table? && |lua.pairs| == |items|
      && forall j :: 0 <= j < |items| ==> Shows(S, f.ftype, items[j], Get(lua.pairs, Index(j)))
  }

  /** A table with exactly one entry for each field, under its name. */
  ghost predicate ShowsMsg(S: Schema, ty: string, m: Msg, lua: Lua)
    requires TypedMsg(S, ty, m)
    decreases m, 0
  {
    && lua.Table? && |lua.pairs| == |S[ty]|
    && forall i :: 0 <= i < |S[ty]| ==> ShowsField(S, S[ty][i], m.vals[i], Get(lua.pairs, Name(S[ty][i].name)))
  }

  lemma ScalarShows(t: ScalarType, v: Scalar)
    requires HasScalarType(t, v)
    ensures ShowsScalar(v, ToLua(v))
  {
    match v
    case Flag(_) =>
    case Chars(s) => CStringIs(s);
    case Num(n) => NumberShows(n);
  }

  lemma NumberShows(n: int)
    requires 0 - HALF64 <= n < WORD64
    ensures ShowsScalar(Num(n), ToLua(Num(n)))
  {
    RemainderOf(n, WORD64);
    var w := if n < HALF64 then n else n - WORD64;
    assert Signed(n, WORD64) == w;
    AsDoubleIsNearest(w);
    hide Nearest;
    if 0 - MANTISSA < n < MANTISSA {
      SmallIsExact(n);
    }
  }

  /** The value of a field that is not set is shown like any other. */
  lemma DefaultShows(t: ScalarType)
    ensures ShowsScalar(DefaultScalar(t), DefaultLua(Of(t)))
  {
    NumberShows(0);
    SmallIsExact(0);
    hide Nearest, AsDouble;
    assert ToLua(Num(0)) == Number(0);
  }

  lemma {:induction false} ItemShows(S: Schema, ft: FieldType, it: Item)
    requires GoodSchema(S) && TypedItem(S, ft, it)
    ensures Shows(S, ft, it, DecodeItem(S, ft, it))
    decreases it, 1
  {
    match ft
    case Of(t) => ScalarShows(t, it.v);
    case Sub(ty) => MessageShows(S, ty, it.m);
  }

  lemma {:induction false} FieldShows(S: Schema, f: Field, fv: FieldVal)
    requires GoodSchema(S) && TypedField(S, f, fv)
    ensures ShowsField(S, f, fv, DecodeField(S, f, fv))
    decreases fv, 2
  {
    match fv
    case Absent =>
    case One(it) =>
      if IsSet(f, fv) {
        ItemShows(S, f.ftype, it);
      } else {
        DefaultShows(f.ftype.t);
      }
    case Many(items) =>
      hide GoodSchema, Shows, DecodeItem;
      var pairs := DecodeItems(S, f.ftype, items);
      forall j | 0 <= j < |items| ensures Shows(S, f.ftype, items[j], Get(pairs, Index(j))) {
        ItemShows(S, f.ftype, items[j]);
        assert pairs[j].key == Index(j);
        var k := Position(pairs, Index(j));
        assert k == j;
      }
  }

  /** What the decoder puts on the stack shows every field of the message, at every depth. */
  lemma {:induction false} MessageShows(S: Schema, ty: string, m: Msg)
    requires GoodSchema(S) && TypedMsg(S, ty, m)
    ensures ShowsMsg(S, ty, m, DecodeMsg(S, ty, m))
    decreases m, 0
  {
    hide ShowsField, DecodeField;
    var pairs := DecodeMsg(S, ty, m).pairs;
    forall i | 0 <= i < |S[ty]| ensures ShowsField(S, S[ty][i], m.vals[i], Get(pairs, Name(S[ty][i].name))) {
      FieldFound(S, ty, m, i);
      FieldShows(S, S[ty][i], m.vals[i]);
    }
  }

  // ----- what a message keeps of a table

  /** The whole number a value stands for, where one is wanted. */
  function WholeNumber(env: Env, lua: Lua): int {
    match lua
    case Number(n) => n
    case String(s) => env.numberOf(s)
    case _ => 0
  }

  /** `n` is of the type's range and differs from `wanted` by a multiple of it. */
  predicate Wrapped(t: ScalarType, wanted: int, n: int) {
    HasScalarType(t, Num(n)) && (n - wanted) % (if t.Int64? || t.UInt64? then WORD64 else WORD32) == 0
  }

  /** Any value but false is true; numbers wrap to the type; texts and numbers are texts up to the first NUL. */
  predicate KeepsScalar(env: Env, t: ScalarType, lua: Lua, v: Scalar) {
    match t
    case Bool => v == Flag(lua != Boolean(false))
    case Text => v.Chars? && ((lua.String? && IsCString(lua.s, v.s)) || (lua.Number? && IsCString(env.textOf(lua.n), v.s)))
    case _ => v.Num? && Wrapped(t, WholeNumber(env, lua), v.n)
  }

  /** A number that is of the type is kept as it is, and so is a text without NUL. */
  lemma KeepsWhatFits(env: Env, t: ScalarType, lua: Lua, v: Scalar)
    requires KeepsScalar(env, t, lua, v)
    ensures lua.Number? && HasScalarType(t, Num(lua.n)) ==> v == Num(lua.n)
    ensures t.Text? && lua.String? && '\0' !in lua.s ==> v == Chars(lua.s)
  {
    if lua.Number? && HasScalarType(t, Num(lua.n)) {
      WrappedOnce(t, lua.n, v.n);
    }
  }

  lemma WrappedOnce(t: ScalarType, wanted: int, n: int)
    requires Wrapped(t, wanted, n) && HasScalarType(t, Num(wanted))
    ensures n == wanted
  {
    var range := if t.Int64? || t.UInt64? then WORD64 else WORD32;
    var q := (n - wanted) / range;
    assert n - wanted == q * range;
    assert q >= 1 ==> q * range >= range;
    assert q <= -1 ==> q * range <= 0 - range;
  }

  /** How many values come before the `j`-th pair. */
  function Rank(pairs: seq<Pair>, j: nat): nat
    requires j <= |pairs|
  {
    if j == 0 then 0 else Rank(pairs, j - 1) + if pairs[j - 1].value == Nil then 0 else 1
  }

  ghost predicate Keeps(S: Schema, env: Env, ft: FieldType, lua: Lua, it: Item)
    decreases lua, 4
  {
    match ft
    case Of(t) => it.Plain? && KeepsScalar(env, t, lua, it.v)
    case Sub(ty) => it.Tree? && KeepsMsg(S, env, ty, lua, it.m)
  }

  /** One element for each value of the table, in the order the table is traversed. */
  ghost predicate KeepsList(S: Schema, env: Env, ft: FieldType, lua: Lua, items: seq<Item>)
    requires lua.Table?
    decreases lua, 1
  {
    && |items| == Rank(lua.pairs, |lua.pairs|)
    && forall j :: 0 <= j < |lua.pairs| && lua.pairs[j].value != Nil ==>
         Rank(lua.pairs, j) < |items| && Keeps(S, env, ft, lua.pairs[j].value, items[Rank(lua.pairs, j)])
  }

  /** Without a value a field is empty, zero or absent, and so is a list that is no table. */
  ghost predicate KeepsField(S: Schema, env: Env, f: Field, table: Lua, fv: FieldVal)
    requires table.Table?
    decreases table, 2
  {
    var k := Position(table.pairs, Name(f.name));
    if f.repeated then
      fv.Many? && if k < |table.pairs| && table.pairs[k].value.Table?
                  then KeepsList(S, env, f.ftype, table.pairs[k].value, fv.items) else fv.items == []
    else if k < |table.pairs| && table.pairs[k].value != Nil then
      fv.One? && Keeps(S, env, f.ftype, table.pairs[k].value, fv.item)
    else
      fv == match f.ftype
            case Of(Bool) => One(Plain(Flag(false)))
            case Of(Text) => One(Plain(Chars("")))
            case Of(_) => One(Plain(Num(0)))
            case Sub(_) => Absent
  }

  ghost predicate KeepsMsg(S: Schema, env: Env, ty: string, lua: Lua, m: Msg)
    decreases lua, 3
  {
    && lua.Table? && ty in S && |m.vals| == |S[ty]|
    && forall i :: 0 <= i < |S[ty]| ==> KeepsField(S, env, S[ty][i], lua, m.vals[i])
  }

  lemma ConvertedKeeps(env: Env, t: ScalarType, lua: Lua)
    requires lua != Nil && FromLua(env, t, lua).Value?
    ensures KeepsScalar(env, t, lua, FromLua(env, t, lua).v)
  {
    match t
    case Bool =>
    case Text => CStringIs(if lua.String? then lua.s else env.textOf(lua.n));
    case _ => NumberKeeps(t, WholeNumber(env, lua));
  }

  lemma NumberKeeps(t: ScalarType, n: int)
    ensures t.Int32? || t.Enum? ==> Wrapped(t, n, Signed(n, WORD32))
    ensures t.UInt32? ==> Wrapped(t, n, Unsigned(n, WORD32))
    ensures t.Int64? ==> Wrapped(t, n, Signed(n, WORD64))
    ensures t.UInt64? ==> Wrapped(t, n, Unsigned(n, WORD64))
  {
    Congruent(n, WORD32);
    Congruent(n, WORD64);
  }

  lemma Congruent(n: int, range: nat)
    requires range > 0
    ensures (n % range - n) % range == 0 && (n % range - range - n) % range == 0
  {
    var q := n / range;
    assert n % range - n == (0 - q) * range;
    MultipleOf(0 - q, range);
    assert n % range - range - n == (0 - q - 1) * range;
    MultipleOf(0 - q - 1, range);
  }

  lemma MultipleOf(q: int, range: nat)
    requires range > 0
    ensures (q * range) % range == 0
  {
    var r := (q * range) % range;
    var p := (q * range) / range;
    assert q * range == p * range + r;
    assert r == (q - p) * range;
    assert q - p >= 1 ==> (q - p) * range >= range;
    assert q - p <= -1 ==> (q - p) * range <= 0 - range;
  }

  lemma {:induction false} ItemKeeps(S: Schema, env: Env, ft: FieldType, v: Lua)
    requires GoodSchema(S) && (ft.Sub? ==> ft.typename in S) && v != Nil && EncodeItem(S, env, ft, v).Ok?
    ensures Keeps(S, env, ft, v, EncodeItem(S, env, ft, v).v)
    decreases v, 4, 0
  {
    match ft
    case Of(t) => ConvertedKeeps(env, t, v);
    case Sub(ty) => EncodedKeeps(S, env, ty, v);
  }

  /** From the `j`-th pair on, `its` keeps what there is. */
  ghost predicate KeepsFrom(S: Schema, env: Env, ft: FieldType, pairs: seq<Pair>, j: nat, its: seq<Item>)
    requires j <= |pairs|
  {
    && Rank(pairs, j) + |its| == Rank(pairs, |pairs|)
    && forall i :: j <= i < |pairs| && pairs[i].value != Nil ==> KeepsAt(S, env, ft, pairs, i, Rank(pairs, j), its)
  }

  ghost predicate KeepsAt(S: Schema, env: Env, ft: FieldType, pairs: seq<Pair>, i: nat, base: nat, its: seq<Item>)
    requires i < |pairs|
  {
    var k := Rank(pairs, i) - base;
    0 <= k < |its| && Keeps(S, env, ft, pairs[i].value, its[k])
  }

  lemma RankStep(pairs: seq<Pair>, j: nat)
    requires j < |pairs|
    ensures Rank(pairs, j + 1) == Rank(pairs, j) + if pairs[j].value == Nil then 0 else 1
  {
  }

  lemma KeepsHere(S: Schema, env: Env, ft: FieldType, pairs: seq<Pair>, j: nat, it: Item, its: seq<Item>)
    requires j < |pairs| && pairs[j].value != Nil
    requires Keeps(S, env, ft, pairs[j].value, it) && KeepsFrom(S, env, ft, pairs, j + 1, its)
    ensures KeepsFrom(S, env, ft, pairs, j, [it] + its)
  {
    hide Keeps, Rank;
    var base := Rank(pairs, j);
    RankStep(pairs, j);
    forall i | j <= i < |pairs| && pairs[i].value != Nil ensures KeepsAt(S, env, ft, pairs, i, base, [it] + its) {
      if i > j {
        assert KeepsAt(S, env, ft, pairs, i, base + 1, its);
      }
    }
  }

  lemma KeepsNext(S: Schema, env: Env, ft: FieldType, pairs: seq<Pair>, j: nat, its: seq<Item>)
    requires j < |pairs| && pairs[j].value == Nil && KeepsFrom(S, env, ft, pairs, j + 1, its)
    ensures KeepsFrom(S, env, ft, pairs, j, its)
  {
    hide KeepsAt, Rank;
    RankStep(pairs, j);
  }

  lemma {:induction false} ItemsKeep(S: Schema, env: Env, ft: FieldType, table: Lua, j: nat)
    requires GoodSchema(S) && (ft.Sub? ==> ft.typename in S) && table.Table? && j <= |table.pairs|
    requires EncodeItems(S, env, ft, table, j).Ok?
    ensures KeepsFrom(S, env, ft, table.pairs, j, EncodeItems(S, env, ft, table, j).v)
    decreases table, 0, |table.pairs| - j
  {
    if j < |table.pairs| {
      hide GoodSchema, EncodeItem, Keeps, KeepsFrom;
      var v := table.pairs[j].value;
      ItemsKeep(S, env, ft, table, j + 1);
      var rest := EncodeItems(S, env, ft, table, j + 1).v;
      if v != Nil {
        ItemKeeps(S, env, ft, v);
        KeepsHere(S, env, ft, table.pairs, j, EncodeItem(S, env, ft, v).v, rest);
      } else {
        KeepsNext(S, env, ft, table.pairs, j, rest);
      }
    }
  }

  lemma ListKept(S: Schema, env: Env, ft: FieldType, lua: Lua, its: seq<Item>)
    requires lua.Table? && KeepsFrom(S, env, ft, lua.pairs, 0, its)
    ensures KeepsList(S, env, ft, lua, its)
  {
    hide Keeps;
    forall j | 0 <= j < |lua.pairs| && lua.pairs[j].value != Nil
      ensures Rank(lua.pairs, j) < |its| && Keeps(S, env, ft, lua.pairs[j].value, its[Rank(lua.pairs, j)])
    {
      assert KeepsAt(S, env, ft, lua.pairs, j, 0, its);
    }
  }

  lemma {:induction false} FieldKeeps(S: Schema, env: Env, f: Field, table: Lua)
    requires GoodSchema(S) && (f.ftype.Sub? ==> f.ftype.typename in S) && table.Table?
    requires EncodeField(S, env, f, table).Ok?
    ensures KeepsField(S, env, f, table, EncodeField(S, env, f, table).v)
    decreases table, 1, 0
  {
    var k := Position(table.pairs, Name(f.name));
    if k < |table.pairs| && table.pairs[k].value != Nil {
      var v := table.pairs[k].value;
      if f.repeated {
        if v.Table? {
          ItemsKeep(S, env, f.ftype, v, 0);
          ListKept(S, env, f.ftype, v, EncodeItems(S, env, f.ftype, v, 0).v);
        }
      } else {
        ItemKeeps(S, env, f.ftype, v);
      }
    }
  }

  lemma {:induction false} FieldsKeep(S: Schema, env: Env, fields: seq<Field>, table: Lua, i: nat)
    requires GoodSchema(S) && GoodDescriptor(S, fields) && table.Table? && i <= |fields|
    requires EncodeFields(S, env, fields, table, i).Ok?
    ensures var fvs := EncodeFields(S, env, fields, table, i).v;
            && |fvs| == |fields| - i
            && forall k :: i <= k < |fields| ==> KeepsField(S, env, fields[k], table, fvs[k - i])
    decreases table, 2, |fields| - i
  {
    if i < |fields| {
      FieldKeeps(S, env, fields[i], table);
      FieldsKeep(S, env, fields, table, i + 1);
      hide KeepsField, EncodeField, GoodSchema;
      var fvs, rest := EncodeFields(S, env, fields, table, i).v, EncodeFields(S, env, fields, table, i + 1).v;
      forall k | i <= k < |fields| ensures KeepsField(S, env, fields[k], table, fvs[k - i]) {
        if k > i {
          assert fvs[k - i] == rest[k - (i + 1)];
        }
      }
    }
  }

  /** Whatever table is encoded with success, from whatever source: the message keeps of it, field by field, what the types allow. */
  lemma {:induction false} EncodedKeeps(S: Schema, env: Env, ty: string, v: Lua)
    requires GoodSchema(S) && ty in S && EncodeMsg(S, env, ty, v).Ok?
    ensures KeepsMsg(S, env, ty, v, EncodeMsg(S, env, ty, v).v)
    decreases v, 3, 0
  {
    assert GoodDescriptor(S, S[ty]);
    FieldsKeep(S, env, S[ty], v, 0);
    hide KeepsField, EncodeFields;
    var m := EncodeMsg(S, env, ty, v).v;
    forall i | 0 <= i < |S[ty]| ensures KeepsField(S, env, S[ty][i], v, m.vals[i]) {
      assert m.vals[i] == m.vals[i - 0];
    }
  }
}
