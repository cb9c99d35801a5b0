/**
 The round trip through Lua, exactly.
 */
module CodecTheorems {
  import opened LuaValues
  import opened CodecSpec

  lemma DefaultIsScalarDefault(t: ScalarType)
    ensures DefaultLua(Of(t)) == ToLua(DefaultScalar(t))
  {
    SmallIsExact(0);
  }

  lemma FromHere<T>(s: seq<T>, i: nat)
    requires i < |s|
    ensures s[i..] == [s[i]] + s[i + 1..]
  {
  }

  /** An empty table encodes to a message with nothing set. */
  lemma {:induction false} EmptyTableEncodes(S: Schema, env: Env, fields: seq<Field>, i: nat)
    requires GoodSchema(S) && GoodDescriptor(S, fields) && i <= |fields|
    ensures EncodeFields(S, env, fields, Table([]), i) == Ok(EmptyMsg(fields).vals[i..])
    decreases |fields| - i
  {
    if i < |fields| {
      EmptyTableEncodes(S, env, fields, i + 1);
      assert EncodeField(S, env, fields[i], Table([])) == Ok(Unset(fields[i]));
      FromHere(EmptyMsg(fields).vals, i);
    } else {
      assert EmptyMsg(fields).vals[i..] == [];
    }
  }

  ghost function ImageItems(S: Schema, env: Env, ft: FieldType, items: seq<Item>): (r: seq<Item>)
    requires GoodSchema(S) && forall j :: 0 <= j < |items| ==> TypedItem(S, ft, items[j])
  {
    seq(|items|, j requires 0 <= j < |items| => ImageItem(S, env, ft, items[j]))
  }

  lemma {:induction false} RoundTripItem(S: Schema, env: Env, ft: FieldType, it: Item)
    requires GoodSchema(S) && (ft.Sub? ==> ft.typename in S) && TypedItem(S, ft, it)
    ensures EncodeItem(S, env, ft, DecodeItem(S, ft, it)) == Ok(ImageItem(S, env, ft, it))
    ensures DecodeItem(S, ft, it) != Nil
    decreases it, 4, 0
  {
    match ft
    case Of(t) => ScalarRoundTrip(env, t, it.v);
    case Sub(ty) => RoundTrip(S, env, ty, it.m);
  }

  lemma {:induction false} RoundTripItems(S: Schema, env: Env, ft: FieldType, items: seq<Item>, j: nat)
    requires GoodSchema(S) && (ft.Sub? ==> ft.typename in S) && j <= |items|
    requires forall k :: 0 <= k < |items| ==> TypedItem(S, ft, items[k])
    ensures EncodeItems(S, env, ft, Table(DecodeItems(S, ft, items)), j) == Ok(ImageItems(S, env, ft, items)[j..])
    decreases items, 0, |items| - j
  {
    if j < |items| {
      hide GoodSchema, EncodeItem, DecodeItem, ImageItem;
      RoundTripItem(S, env, ft, items[j]);
      RoundTripItems(S, env, ft, items, j + 1);
      FromHere(ImageItems(S, env, ft, items), j);
    }
  }

  lemma {:induction false} RoundTripField(S: Schema, env: Env, f: Field, fv: FieldVal, table: Lua)
    requires GoodSchema(S) && (f.ftype.Sub? ==> f.ftype.typename in S) && TypedField(S, f, fv)
    requires table.Table? && Position(table.pairs, Name(f.name)) < |table.pairs|
    requires Get(table.pairs, Name(f.name)) == DecodeField(S, f, fv)
    ensures EncodeField(S, env, f, table) == Ok(ImageField(S, env, f, fv))
    decreases fv, 1, 0
  {
    if f.repeated {
      RoundTripItems(S, env, f.ftype, fv.items, 0);
    } else if fv.One? {
      RoundTripItem(S, env, f.ftype, fv.item);
      if f.ftype.Of? {
        DefaultIsScalarDefault(f.ftype.t);
      }
    } else {
      EmptyTableEncodes(S, env, S[f.ftype.typename], 0);
    }
  }

  lemma {:induction false} RoundTripFields(S: Schema, env: Env, ty: string, m: Msg, i: nat)
    requires GoodSchema(S) && TypedMsg(S, ty, m) && i <= |m.vals|
    ensures EncodeFields(S, env, S[ty], DecodeMsg(S, ty, m), i) == Ok(ImageMsg(S, env, ty, m).vals[i..])
    decreases m, 2, |m.vals| - i
  {
    if i < |m.vals| {
      var table, f := DecodeMsg(S, ty, m), S[ty][i];
      FieldFound(S, ty, m, i);
      RoundTripField(S, env, f, m.vals[i], table);
      RoundTripFields(S, env, ty, m, i + 1);
      FromHere(ImageMsg(S, env, ty, m).vals, i);
    } else {
      assert ImageMsg(S, env, ty, m).vals[i..] == [];
    }
  }

  lemma FieldFound(S: Schema, ty: string, m: Msg, i: nat)
    requires GoodSchema(S) && TypedMsg(S, ty, m) && i < |m.vals|
    ensures var pairs := DecodeMsg(S, ty, m).pairs;
            && Position(pairs, Name(S[ty][i].name)) == i < |pairs|
            && Get(pairs, Name(S[ty][i].name)) == DecodeField(S, S[ty][i], m.vals[i])
  {
    var pairs := DecodeMsg(S, ty, m).pairs;
    assert GoodDescriptor(S, S[ty]);
    assert pairs[i].key == Name(S[ty][i].name);
  }

  /** Decoding and encoding again always succeeds, and gives exactly the image. */
  lemma {:induction false} RoundTrip(S: Schema, env: Env, ty: string, m: Msg)
    requires GoodSchema(S) && TypedMsg(S, ty, m)
    ensures EncodeMsg(S, env, ty, DecodeMsg(S, ty, m)) == Ok(ImageMsg(S, env, ty, m))
    decreases m, 3, 0
  {
    RoundTripFields(S, env, ty, m, 0);
  }

  // ----- when the message comes back unchanged

  /** Every scalar survives Lua and no singular submessage is absent, at any depth. */
  ghost predicate FaithfulItem(it: Item)
    decreases it, 1
  {
    match it
    case Plain(v) => Survives(v)
    case Tree(m) => Faithful(m)
  }

  ghost predicate FaithfulField(fv: FieldVal)
    decreases fv, 2
  {
    match fv
    case One(it) => FaithfulItem(it)
    case Absent => false
    case Many(items) => forall j :: 0 <= j < |items| ==> FaithfulItem(items[j])
  }

  ghost predicate Faithful(m: Msg)
    decreases m, 0
  {
    forall i :: 0 <= i < |m.vals| ==> FaithfulField(m.vals[i])
  }

  lemma {:induction false} ItemUnchanged(S: Schema, env: Env, ft: FieldType, it: Item)
    requires GoodSchema(S) && TypedItem(S, ft, it)
    ensures ImageItem(S, env, ft, it) == it <==> FaithfulItem(it)
    decreases it, 1
  {
    match ft
    case Of(t) => ScalarRoundTrip(env, t, it.v);
    case Sub(ty) => ExactlyFaithful(S, env, ty, it.m);
  }

  lemma {:induction false} FieldUnchanged(S: Schema, env: Env, f: Field, fv: FieldVal)
    requires GoodSchema(S) && TypedField(S, f, fv) && (f.ftype.Sub? ==> f.ftype.typename in S)
    ensures ImageField(S, env, f, fv) == fv <==> FaithfulField(fv)
    decreases fv, 2
  {
    match fv
    case One(it) => ItemUnchanged(S, env, f.ftype, it);
    case Absent =>
    case Many(items) =>
      var image := ImageField(S, env, f, fv);
      forall j | 0 <= j < |items| ensures image.items[j] == items[j] <==> FaithfulItem(items[j]) {
        ItemUnchanged(S, env, f.ftype, items[j]);
      }
      if FaithfulField(fv) {
        assert image.items == items;
      }
  }

  /** A message comes back unchanged if and only if it is faithful. */
  lemma {:induction false} ExactlyFaithful(S: Schema, env: Env, ty: string, m: Msg)
    requires GoodSchema(S) && TypedMsg(S, ty, m)
    ensures ImageMsg(S, env, ty, m) == m <==> Faithful(m)
    decreases m, 0
  {
    var image := ImageMsg(S, env, ty, m);
    assert GoodDescriptor(S, S[ty]);
    forall i | 0 <= i < |m.vals| ensures image.vals[i] == m.vals[i] <==> FaithfulField(m.vals[i]) {
      FieldUnchanged(S, env, S[ty][i], m.vals[i]);
    }
    if Faithful(m) {
      assert image.vals == m.vals;
    }
  }

  /** A field that a faithful message has to carry a submessage in. */
  predicate Demands(f: Field, C: set<string>) {
    !f.repeated && f.ftype.Sub? && f.ftype.typename in C
  }

  /** From every type of `C` a singular submessage field leads back into `C`. */
  ghost predicate Trapped(S: Schema, C: set<string>) {
    forall ty <- C :: ty in S && exists i :: 0 <= i < |S[ty]| && Demands(S[ty][i], C)
  }

  /** Types that lead back to themselves through singular fields, directly or not, have no faithful message. */
  lemma {:induction false} TrappedIsNeverFaithful(S: Schema, C: set<string>, ty: string, m: Msg)
    requires Trapped(S, C) && ty in C && TypedMsg(S, ty, m)
    ensures !Faithful(m)
    decreases m
  {
    var i := TrappedField(S, C, ty);
    hide Trapped;
    var ty', fv := S[ty][i].ftype.typename, m.vals[i];
    assert TypedField(S, S[ty][i], fv);
    if fv.One? {
      var m' := fv.item.m;
      assert TypedMsg(S, ty', m');
      TrappedIsNeverFaithful(S, C, ty', m');
      assert !FaithfulItem(fv.item);
    }
    assert !FaithfulField(fv);
  }

  lemma TrappedField(S: Schema, C: set<string>, ty: string) returns (i: nat)
    requires Trapped(S, C) && ty in C
    ensures ty in S && i < |S[ty]| && Demands(S[ty][i], C)
  {
    hide Demands;
    i :| 0 <= i < |S[ty]| && Demands(S[ty][i], C);
  }

  ghost predicate HasFaithful(S: Schema, ty: string) {
    exists m :: TypedMsg(S, ty, m) && Faithful(m)
  }

  /** A faithful value for one field, when its type, if it needs one, has a faithful message. */
  lemma FaithfulValue(S: Schema, f: Field) returns (fv: FieldVal)
    requires !f.repeated && f.ftype.Sub? ==> HasFaithful(S, f.ftype.typename)
    ensures TypedField(S, f, fv) && FaithfulField(fv)
  {
    if f.repeated {
      fv := Many([]);
    } else if f.ftype.Sub? {
      var m :| TypedMsg(S, f.ftype.typename, m) && Faithful(m);
      fv := One(Tree(m));
      assert FaithfulItem(Tree(m));
    } else {
      var v := DefaultScalar(f.ftype.t);
      SmallIsExact(0);
      fv := One(Plain(v));
      assert FaithfulItem(Plain(v));
    }
  }

  lemma FaithfulMessage(S: Schema, ty: string)
    requires ty in S
    requires forall i :: 0 <= i < |S[ty]| && !S[ty][i].repeated && S[ty][i].ftype.Sub? ==> HasFaithful(S, S[ty][i].ftype.typename)
    ensures HasFaithful(S, ty)
  {
    var fields := S[ty];
    var vals := [];
    while |vals| < |fields|
      invariant |vals| <= |fields|
      invariant forall i :: 0 <= i < |vals| ==> TypedField(S, fields[i], vals[i]) && FaithfulField(vals[i])
    {
      var fv := FaithfulValue(S, fields[|vals|]);
      vals := vals + [fv];
    }
    var m := Msg(vals);
    assert TypedMsg(S, ty, m) && Faithful(m);
  }

  /**
   Which types have messages that come back unchanged: exactly those outside every set of
   types each of which needs a singular submessage of the set.
   */
  lemma RecursionNeverSettles(S: Schema, ty: string)
    requires GoodSchema(S) && ty in S
    ensures HasFaithful(S, ty) <==> !exists C: set<string> :: ty in C && Trapped(S, C)
  {
    if C: set<string> :| ty in C && Trapped(S, C) {
      forall m | TypedMsg(S, ty, m) ensures !Faithful(m) {
        TrappedIsNeverFaithful(S, C, ty, m);
      }
    } else if !HasFaithful(S, ty) {
      var C := set t | t in S && !HasFaithful(S, t);
      hide Trapped;
      forall t <- C ensures t in S && exists i :: 0 <= i < |S[t]| && Demands(S[t][i], C) {
        assert GoodDescriptor(S, S[t]);
        if forall i :: 0 <= i < |S[t]| ==> !Demands(S[t][i], C) {
          FaithfulMessage(S, t);
        }
      }
      assert ty in C;
      TrappedFrom(S, C);
    }
  }

  lemma TrappedFrom(S: Schema, C: set<string>)
    requires forall ty <- C :: ty in S && exists i :: 0 <= i < |S[ty]| && Demands(S[ty][i], C)
    ensures Trapped(S, C)
  {
    hide Demands;
  }

  // ----- the image is what the source promises: the message up to absent submessages

  /** Equal except that an absent submessage stands for one with nothing set, at any depth. */
  ghost predicate SameUpToAbsence(S: Schema, ty: string, a: Msg, b: Msg)
    decreases a, b
  {
    && ty in S && |a.vals| == |b.vals| == |S[ty]|
    && forall i :: 0 <= i < |S[ty]| ==> SameField(S, S[ty][i], a.vals[i], b.vals[i])
  }

  ghost predicate SameItem(S: Schema, ft: FieldType, a: Item, b: Item)
    decreases a, b
  {
    match ft
    case Of(_) => a == b
    case Sub(ty) => a.Tree? && b.Tree? && SameUpToAbsence(S, ty, a.m, b.m)
  }

  ghost predicate SameField(S: Schema, f: Field, a: FieldVal, b: FieldVal)
    decreases a, b
  {
    match (a, b)
    case (One(x), One(y)) => SameItem(S, f.ftype, x, y)
    case (Many(xs), Many(ys)) =>
      |xs| == |ys| && forall j :: 0 <= j < |xs| ==> SameItem(S, f.ftype, xs[j], ys[j])
    case (Absent, Absent) => true
    case (Absent, One(y)) => f.ftype.Sub? && f.ftype.typename in S && y == Tree(EmptyMsg(S[f.ftype.typename]))
    case _ => false
  }

  /** Every scalar survives Lua, at any depth. */
  ghost predicate IntactItem(it: Item)
    decreases it, 1
  {
    match it
    case Plain(v) => Survives(v)
    case Tree(m) => Intact(m)
  }

  ghost predicate IntactField(fv: FieldVal)
    decreases fv, 2
  {
    match fv
    case One(it) => IntactItem(it)
    case Absent => true
    case Many(items) => forall j :: 0 <= j < |items| ==> IntactItem(items[j])
  }

  ghost predicate Intact(m: Msg)
    decreases m, 0
  {
    forall i :: 0 <= i < |m.vals| ==> IntactField(m.vals[i])
  }

  lemma {:induction false} ImageItemSame(S: Schema, env: Env, ft: FieldType, it: Item)
    requires GoodSchema(S) && TypedItem(S, ft, it)
    ensures SameItem(S, ft, it, ImageItem(S, env, ft, it)) <==> IntactItem(it)
    decreases it, 1
  {
    match ft
    case Of(t) => ScalarRoundTrip(env, t, it.v);
    case Sub(ty) => ImageSame(S, env, ty, it.m);
  }

  lemma {:induction false} ImageFieldSame(S: Schema, env: Env, f: Field, fv: FieldVal)
    requires GoodSchema(S) && TypedField(S, f, fv) && (f.ftype.Sub? ==> f.ftype.typename in S)
    ensures SameField(S, f, fv, ImageField(S, env, f, fv)) <==> IntactField(fv)
    decreases fv, 2
  {
    match fv
    case One(it) => ImageItemSame(S, env, f.ftype, it);
    case Absent =>
    case Many(items) =>
      var image := ImageField(S, env, f, fv);
      forall j | 0 <= j < |items|
        ensures SameItem(S, f.ftype, items[j], image.items[j]) <==> IntactItem(items[j])
      {
        ImageItemSame(S, env, f.ftype, items[j]);
      }
  }

  lemma {:induction false} ImageSame(S: Schema, env: Env, ty: string, m: Msg)
    requires GoodSchema(S) && TypedMsg(S, ty, m)
    ensures SameUpToAbsence(S, ty, m, ImageMsg(S, env, ty, m)) <==> Intact(m)
    decreases m, 0
  {
    var image := ImageMsg(S, env, ty, m);
    assert GoodDescriptor(S, S[ty]);
    forall i | 0 <= i < |m.vals|
      ensures SameField(S, S[ty][i], m.vals[i], image.vals[i]) <==> IntactField(m.vals[i])
    {
      ImageFieldSame(S, env, S[ty][i], m.vals[i]);
    }
  }

  /**
   Encoding what was decoded gives the message back, up to absent submessages appearing
   with nothing set, if and only if all its integers are doubles and its strings hold no NUL.
   */
  lemma RoundTripMeaning(S: Schema, env: Env, ty: string, m: Msg)
    requires GoodSchema(S) && TypedMsg(S, ty, m)
    ensures var r := EncodeMsg(S, env, ty, DecodeMsg(S, ty, m));
            r.Ok? && (SameUpToAbsence(S, ty, m, r.v) <==> Intact(m))
  {
    RoundTrip(S, env, ty, m);
    ImageSame(S, env, ty, m);
  }

  // ----- what a failed encoding leaves behind

  predicate Stray(junk: seq<Lua>) {
    junk == [] || (|junk| == 2 && junk[0].Table?)
  }

  lemma {:induction false} ItemLeavesLittle(S: Schema, env: Env, ft: FieldType, v: Lua)
    requires GoodSchema(S) && (ft.Sub? ==> ft.typename in S)
    ensures var r := EncodeItem(S, env, ft, v); r.Fail? ==> Stray(r.junk) && (v.Table? || r.junk == [])
    decreases v, 4, 0
  {
    match ft
    case Of(_) =>
    case Sub(ty) => MsgLeavesLittle(S, env, ty, v);
  }

  lemma {:induction false} ItemsLeaveLittle(S: Schema, env: Env, ft: FieldType, table: Lua, j: nat)
    requires GoodSchema(S) && (ft.Sub? ==> ft.typename in S) && table.Table? && j <= |table.pairs|
    ensures var r := EncodeItems(S, env, ft, table, j); r.Fail? ==> Stray(r.junk)
    decreases table, 0, |table.pairs| - j
  {
    if j < |table.pairs| {
      ItemsLeaveLittle(S, env, ft, table, j + 1);
    }
  }

  lemma {:induction false} FieldLeavesLittle(S: Schema, env: Env, f: Field, table: Lua)
    requires GoodSchema(S) && (f.ftype.Sub? ==> f.ftype.typename in S) && table.Table?
    ensures var r := EncodeField(S, env, f, table); r.Fail? ==> Stray(r.junk)
    decreases table, 1, 0
  {
    var k := Position(table.pairs, Name(f.name));
    if k < |table.pairs| {
      var v := table.pairs[k].value;
      if f.repeated && v.Table? {
        ItemsLeaveLittle(S, env, f.ftype, v, 0);
      } else {
        ItemLeavesLittle(S, env, f.ftype, v);
      }
    }
  }

  lemma {:induction false} FieldsLeaveLittle(S: Schema, env: Env, fields: seq<Field>, table: Lua, i: nat)
    requires GoodSchema(S) && GoodDescriptor(S, fields) && table.Table? && i <= |fields|
    ensures var r := EncodeFields(S, env, fields, table, i); r.Fail? ==> Stray(r.junk)
    decreases table, 2, |fields| - i
  {
    if i < |fields| {
      FieldLeavesLittle(S, env, fields[i], table);
      FieldsLeaveLittle(S, env, fields, table, i + 1);
    }
  }

  /** A failed encoding leaves nothing or exactly two values, the lower one a table. */
  lemma {:induction false} MsgLeavesLittle(S: Schema, env: Env, ty: string, v: Lua)
    requires GoodSchema(S) && ty in S
    ensures var r := EncodeMsg(S, env, ty, v); r.Fail? ==> Stray(r.junk) && (v.Table? || r.junk == [])
    decreases v, 3, 0
  {
    if v.Table? {
      FieldsLeaveLittle(S, env, S[ty], v, 0);
    }
  }
}
