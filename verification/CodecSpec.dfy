/**
 Messages as typed trees over a schema, and the two translations between them and Lua
 tables. A proto3 scalar is always there, a default value counting as not set; a
 submessage may be absent.
 */
module CodecSpec {
  import opened LuaValues

  datatype FieldType = Of(t: ScalarType) | Sub(typename: string)
  datatype Field = Field(name: string, repeated: bool, ftype: FieldType)

  /** The fields of each message type, in descriptor order. Types may refer to each other in circles. */
  type Schema = map<string, seq<Field>>

  datatype Item = Plain(v: Scalar) | Tree(m: Msg)
  datatype FieldVal = One(item: Item) | Absent | Many(items: seq<Item>)
  datatype Msg = Msg(vals: seq<FieldVal>)

  ghost predicate GoodDescriptor(S: Schema, fields: seq<Field>) {
    && (forall i, j :: 0 <= i < j < |fields| ==> fields[i].name != fields[j].name)
    && (forall i :: 0 <= i < |fields| && fields[i].ftype.Sub? ==> fields[i].ftype.typename in S)
  }

  ghost predicate GoodSchema(S: Schema) {
    forall ty :: ty in S ==> GoodDescriptor(S, S[ty])
  }

  ghost predicate TypedItem(S: Schema, ft: FieldType, it: Item)
    decreases it, 1
  {
    match ft
    case Of(t) => it.Plain? && HasScalarType(t, it.v)
    case Sub(ty) => it.Tree? && TypedMsg(S, ty, it.m)
  }

  ghost predicate TypedField(S: Schema, f: Field, fv: FieldVal)
    decreases fv, 2
  {
    if f.repeated then fv.Many? && forall j :: 0 <= j < |fv.items| ==> TypedItem(S, f.ftype, fv.items[j])
    else (f.ftype.Sub? && fv.Absent?) || (fv.One? && TypedItem(S, f.ftype, fv.item))
  }

  ghost predicate TypedMsg(S: Schema, ty: string, m: Msg)
    decreases m, 0
  {
    && ty in S && |m.vals| == |S[ty]|
    && forall i :: 0 <= i < |m.vals| ==> TypedField(S, S[ty][i], m.vals[i])
  }

  // ----- decoding: a message to a table

  /** `HasField` of a singular field. */
  predicate IsSet(f: Field, fv: FieldVal) {
    match f.ftype
    case Of(t) => fv.One? && fv.item != Plain(DefaultScalar(t))
    case Sub(_) => fv.One?
  }

  /** What a singular field that is not set becomes. */
  function DefaultLua(ft: FieldType): Lua {
    match ft
    case Of(Bool) => Boolean(false)
    case Of(Text) => String("")
    case Of(_) => Number(0)
    case Sub(_) => Table([])
  }

  ghost function DecodeItem(S: Schema, ft: FieldType, it: Item): Lua
    requires TypedItem(S, ft, it)
    decreases it, 1
  {
    match ft
    case Of(_) => ToLua(it.v)
    case Sub(ty) => DecodeMsg(S, ty, it.m)
  }

  ghost function DecodeItems(S: Schema, ft: FieldType, items: seq<Item>): (pairs: seq<Pair>)
    requires forall j :: 0 <= j < |items| ==> TypedItem(S, ft, items[j])
    ensures |pairs| == |items|
    ensures forall j :: 0 <= j < |items| ==> pairs[j] == Pair(Index(j), DecodeItem(S, ft, items[j]))
    decreases items, 2
  {
    if items == [] then []
    else
      var n := |items| - 1;
      DecodeItems(S, ft, items[..n]) + [Pair(Index(n), DecodeItem(S, ft, items[n]))]
  }

  ghost function DecodeField(S: Schema, f: Field, fv: FieldVal): Lua
    requires TypedField(S, f, fv)
    decreases fv, 3
  {
    if f.repeated then Table(DecodeItems(S, f.ftype, fv.items))
    else if IsSet(f, fv) then DecodeItem(S, f.ftype, fv.item)
    else DefaultLua(f.ftype)
  }

  ghost function DecodeFields(S: Schema, fields: seq<Field>, vals: seq<FieldVal>): (pairs: seq<Pair>)
    requires |fields| == |vals| && forall i :: 0 <= i < |vals| ==> TypedField(S, fields[i], vals[i])
    ensures |pairs| == |fields|
    ensures forall i :: 0 <= i < |fields| ==> pairs[i] == Pair(Name(fields[i].name), DecodeField(S, fields[i], vals[i]))
    decreases vals, 4
  {
    if fields == [] then []
    else
      var n := |fields| - 1;
      DecodeFields(S, fields[..n], vals[..n]) + [Pair(Name(fields[n].name), DecodeField(S, fields[n], vals[n]))]
  }

  ghost function DecodeMsg(S: Schema, ty: string, m: Msg): Lua
    requires TypedMsg(S, ty, m)
    decreases m, 0
  {
    Table(DecodeFields(S, S[ty], m.vals))
  }

  // ----- encoding: a table to a message

  /**
   How encoding ends. A failure may leave `junk` on top of the caller's stack; a failure
   under such junk inside a repeated field hands `lua_next` a key that is none.
   */
  datatype Outcome<+T> = Ok(v: T) | Fail(junk: seq<Lua>) | Exception | LuaError

  /** A field no value was found for. */
  function Unset(f: Field): FieldVal {
    if f.repeated then Many([])
    else match f.ftype
      case Of(t) => One(Plain(DefaultScalar(t)))
      case Sub(_) => Absent
  }

  ghost function EncodeItem(S: Schema, env: Env, ft: FieldType, v: Lua): Outcome<Item>
    requires GoodSchema(S) && (ft.Sub? ==> ft.typename in S)
    decreases v, 4, 0
  {
    match ft
    case Of(t) =>
      var c := FromLua(env, t, v);
      if c.Threw? then Exception else Ok(Plain(c.v))
    case Sub(ty) =>
      match EncodeMsg(S, env, ty, v)
      case Ok(m) => Ok(Tree(m))
      case Fail(junk) => Fail(junk)
      case Exception => Exception
      case LuaError => LuaError
  }

  /** The pairs of a repeated field's table from the `j`-th on. */
  ghost function EncodeItems(S: Schema, env: Env, ft: FieldType, table: Lua, j: nat): Outcome<seq<Item>>
    requires GoodSchema(S) && (ft.Sub? ==> ft.typename in S)
    requires table.Table? && j <= |table.pairs|
    decreases table, 0, |table.pairs| - j
  {
    if j == |table.pairs| then Ok([])
    else if table.pairs[j].value == Nil then EncodeItems(S, env, ft, table, j + 1)
    else
      match EncodeItem(S, env, ft, table.pairs[j].value)
      case Ok(it) => (
        match EncodeItems(S, env, ft, table, j + 1)
        case Ok(its) => Ok([it] + its)
        case Fail(junk) => Fail(junk)
        case Exception => Exception
        case LuaError => LuaError)
      case Fail(junk) =>
        if junk != [] then LuaError
        else if j + 1 < |table.pairs| then Fail([table, KeyOf(table.pairs[j + 1].key)])
        else Fail([])
      case Exception => Exception
      case LuaError => LuaError
  }

  ghost function EncodeField(S: Schema, env: Env, f: Field, table: Lua): Outcome<FieldVal>
    requires GoodSchema(S) && (f.ftype.Sub? ==> f.ftype.typename in S) && table.Table?
    decreases table, 1, 0
  {
    var k := Position(table.pairs, Name(f.name));
    var v := if k < |table.pairs| then table.pairs[k].value else Nil;
    if k == |table.pairs| || v == Nil || (f.repeated && !v.Table?) then Ok(Unset(f))
    else if f.repeated then
      match EncodeItems(S, env, f.ftype, v, 0)
      case Ok(its) => Ok(Many(its))
      case Fail(junk) => Fail(junk)
      case Exception => Exception
      case LuaError => LuaError
    else
      match EncodeItem(S, env, f.ftype, v)
      case Ok(it) => Ok(One(it))
      case Fail(junk) => Fail(([v] + junk)[..|junk|])
      case Exception => Exception
      case LuaError => LuaError
  }

  /** The fields from the `i`-th on. */
  ghost function EncodeFields(S: Schema, env: Env, fields: seq<Field>, table: Lua, i: nat): Outcome<seq<FieldVal>>
    requires GoodSchema(S) && GoodDescriptor(S, fields) && table.Table? && i <= |fields|
    decreases table, 2, |fields| - i
  {
    if i == |fields| then Ok([])
    else
      match EncodeField(S, env, fields[i], table)
      case Ok(fv) => (
        match EncodeFields(S, env, fields, table, i + 1)
        case Ok(fvs) => Ok([fv] + fvs)
        case Fail(junk) => Fail(junk)
        case Exception => Exception
        case LuaError => LuaError)
      case Fail(junk) => Fail(junk)
      case Exception => Exception
      case LuaError => LuaError
  }

  ghost function EncodeMsg(S: Schema, env: Env, ty: string, v: Lua): Outcome<Msg>
    requires GoodSchema(S) && ty in S
    decreases v, 3, 0
  {
    if !v.Table? then Fail([])
    else
      match EncodeFields(S, env, S[ty], v, 0)
      case Ok(fvs) => Ok(Msg(fvs))
      case Fail(junk) => Fail(junk)
      case Exception => Exception
      case LuaError => LuaError
  }

  // ----- there and back

  /** What a message becomes: scalars pass through Lua, an absent submessage appears with nothing set. */
  ghost function ImageItem(S: Schema, env: Env, ft: FieldType, it: Item): Item
    requires GoodSchema(S) && TypedItem(S, ft, it)
    decreases it, 1
  {
    match ft
    case Of(t) => ScalarRoundTrip(env, t, it.v); Plain(FromLua(env, t, ToLua(it.v)).v)
    case Sub(ty) => Tree(ImageMsg(S, env, ty, it.m))
  }

  ghost function ImageField(S: Schema, env: Env, f: Field, fv: FieldVal): FieldVal
    requires TypedField(S, f, fv) && GoodSchema(S) && (f.ftype.Sub? ==> f.ftype.typename in S)
    decreases fv, 2
  {
    if f.repeated then Many(seq(|fv.items|, j requires 0 <= j < |fv.items| => ImageItem(S, env, f.ftype, fv.items[j])))
    else if fv.One? then One(ImageItem(S, env, f.ftype, fv.item))
    else One(Tree(EmptyMsg(S[f.ftype.typename])))
  }

  function EmptyMsg(fields: seq<Field>): Msg {
    Msg(seq(|fields|, i requires 0 <= i < |fields| => Unset(fields[i])))
  }

  ghost function ImageMsg(S: Schema, env: Env, ty: string, m: Msg): Msg
    requires GoodSchema(S) && TypedMsg(S, ty, m)
    decreases m, 0
  {
    Msg(seq(|m.vals|, i requires 0 <= i < |m.vals| => ImageField(S, env, S[ty][i], m.vals[i])))
  }
}
