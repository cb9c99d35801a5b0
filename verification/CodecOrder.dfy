/**
 The round trip when Lua traverses tables in whatever order it likes, at every depth.
 Decoding numbers list elements from zero, and Lua 5.1 does not visit key zero first, so
 this is what really happens.
 */
module CodecOrder {
  import opened LuaValues
  import opened CodecSpec
  import opened CodecTheorems

  ghost predicate IsPermutation(p: seq<nat>, n: nat) {
    && |p| == n && (forall k :: 0 <= k < n ==> p[k] < n)
    && (forall i, j :: 0 <= i < j < n ==> p[i] != p[j])
  }

  function Identity(n: nat): (p: seq<nat>)
    ensures |p| == n && forall k :: 0 <= k < n ==> p[k] == k
  {
    seq(n, k => k)
  }

  // ----- every reordering of a decoded message

  /** `v` holds what decoding `it` produces, with the pairs of any table in any order. */
  ghost predicate Renders(S: Schema, ft: FieldType, it: Item, v: Lua)
    requires GoodSchema(S) && TypedItem(S, ft, it)
    decreases it, 1
  {
    match ft
    case Of(_) => v == ToLua(it.v)
    case Sub(ty) => RendersMsg(S, ty, it.m, v)
  }

  ghost predicate RendersList(S: Schema, ft: FieldType, items: seq<Item>, v: Lua)
    requires GoodSchema(S) && forall j :: 0 <= j < |items| ==> TypedItem(S, ft, items[j])
    decreases items, 2
  {
    && v.Table? && |v.pairs| == |items|
    && (forall i, j :: 0 <= i < j < |v.pairs| ==> v.pairs[i].key != v.pairs[j].key)
    && (forall k :: 0 <= k < |v.pairs| ==>
          && v.pairs[k].key.Index? && 0 <= v.pairs[k].key.i < |items|
          && Renders(S, ft, items[v.pairs[k].key.i], v.pairs[k].value))
  }

  ghost predicate RendersField(S: Schema, f: Field, fv: FieldVal, v: Lua)
    requires GoodSchema(S) && TypedField(S, f, fv)
    decreases fv, 3
  {
    if f.repeated then RendersList(S, f.ftype, fv.items, v)
    else if IsSet(f, fv) then Renders(S, f.ftype, fv.item, v)
    else v == DefaultLua(f.ftype)
  }

  ghost predicate RendersMsg(S: Schema, ty: string, m: Msg, v: Lua)
    requires GoodSchema(S) && TypedMsg(S, ty, m)
    decreases m, 0
  {
    && v.Table? && |v.pairs| == |S[ty]|
    && forall i :: 0 <= i < |S[ty]| ==>
         var k := Position(v.pairs, Name(S[ty][i].name));
         k < |v.pairs| && RendersField(S, S[ty][i], m.vals[i], v.pairs[k].value)
  }

  lemma {:induction false} DecodedItemRenders(S: Schema, ft: FieldType, it: Item)
    requires GoodSchema(S) && TypedItem(S, ft, it)
    ensures Renders(S, ft, it, DecodeItem(S, ft, it))
    decreases it, 1
  {
    if ft.Sub? {
      DecodingRenders(S, ft.typename, it.m);
    }
  }

  /** The order the decoder itself produces is one of them. */
  lemma {:induction false} DecodingRenders(S: Schema, ty: string, m: Msg)
    requires GoodSchema(S) && TypedMsg(S, ty, m)
    ensures RendersMsg(S, ty, m, DecodeMsg(S, ty, m))
    decreases m, 0
  {
    var v := DecodeMsg(S, ty, m);
    forall i | 0 <= i < |S[ty]|
      ensures var k := Position(v.pairs, Name(S[ty][i].name));
              k < |v.pairs| && RendersField(S, S[ty][i], m.vals[i], v.pairs[k].value)
    {
      FieldFound(S, ty, m, i);
      var f, fv := S[ty][i], m.vals[i];
      if f.repeated {
        forall j | 0 <= j < |fv.items| ensures Renders(S, f.ftype, fv.items[j], DecodeItem(S, f.ftype, fv.items[j])) {
          DecodedItemRenders(S, f.ftype, fv.items[j]);
        }
      } else if IsSet(f, fv) {
        DecodedItemRenders(S, f.ftype, fv.item);
      }
    }
  }

  // ----- equal up to the order of repeated elements

  ghost predicate Alike(S: Schema, ft: FieldType, a: Item, b: Item)
    decreases a, 1
  {
    match ft
    case Of(_) => a == b
    case Sub(ty) => a.Tree? && b.Tree? && AlikeMsg(S, ty, a.m, b.m)
  }

  /** The elements of `b` are those of `a` in the order `p`. */
  ghost predicate AlikeList(S: Schema, ft: FieldType, a: seq<Item>, b: seq<Item>, p: seq<nat>)
    decreases a, 2
  {
    |a| == |b| == |p| && forall k :: 0 <= k < |p| ==> p[k] < |a| && Alike(S, ft, a[p[k]], b[k])
  }

  ghost predicate AlikeField(S: Schema, f: Field, a: FieldVal, b: FieldVal)
    decreases a, 3
  {
    match (a, b)
    case (One(x), One(y)) => Alike(S, f.ftype, x, y)
    case (Many(xs), Many(ys)) => exists p :: IsPermutation(p, |xs|) && AlikeList(S, f.ftype, xs, ys, p)
    case (Absent, Absent) => true
    case _ => false
  }

  ghost predicate AlikeMsg(S: Schema, ty: string, a: Msg, b: Msg)
    decreases a, 0
  {
    && ty in S && |a.vals| == |b.vals| == |S[ty]|
    && forall i :: 0 <= i < |S[ty]| ==> AlikeField(S, S[ty][i], a.vals[i], b.vals[i])
  }

  /** A message with nothing set is like itself. */
  lemma EmptyIsAlike(S: Schema, ty: string)
    requires ty in S
    ensures AlikeMsg(S, ty, EmptyMsg(S[ty]), EmptyMsg(S[ty]))
  {
    var e := EmptyMsg(S[ty]);
    forall i | 0 <= i < |S[ty]| ensures AlikeField(S, S[ty][i], e.vals[i], e.vals[i]) {
      if S[ty][i].repeated {
        assert IsPermutation([], 0) && AlikeList(S, S[ty][i].ftype, [], [], []);
      }
    }
  }

  // ----- encoding a reordering

  lemma {:induction false} AnyOrderItem(S: Schema, env: Env, ft: FieldType, it: Item, v: Lua)
    requires GoodSchema(S) && (ft.Sub? ==> ft.typename in S) && TypedItem(S, ft, it) && Renders(S, ft, it, v)
    ensures v != Nil && EncodeItem(S, env, ft, v).Ok?
    ensures Alike(S, ft, ImageItem(S, env, ft, it), EncodeItem(S, env, ft, v).v)
    decreases it, 4, 0
  {
    match ft
    case Of(t) => ScalarRoundTrip(env, t, it.v);
    case Sub(ty) => AnyOrder(S, env, ty, it.m, v);
  }

  lemma {:induction false} AnyOrderItems(S: Schema, env: Env, ft: FieldType, items: seq<Item>, v: Lua, j: nat)
    requires GoodSchema(S) && (ft.Sub? ==> ft.typename in S)
    requires (forall k :: 0 <= k < |items| ==> TypedItem(S, ft, items[k])) && RendersList(S, ft, items, v) && j <= |v.pairs|
    ensures var r := EncodeItems(S, env, ft, v, j);
            && r.Ok? && |r.v| == |v.pairs| - j
            && forall k :: 0 <= k < |r.v| ==> Alike(S, ft, ImageItem(S, env, ft, items[v.pairs[j + k].key.i]), r.v[k])
    decreases items, 0, |v.pairs| - j
  {
    if j < |v.pairs| {
      hide GoodSchema, EncodeItem, Renders, ImageItem, Alike;
      AnyOrderItem(S, env, ft, items[v.pairs[j].key.i], v.pairs[j].value);
      AnyOrderItems(S, env, ft, items, v, j + 1);
      var r, tail := EncodeItems(S, env, ft, v, j), EncodeItems(S, env, ft, v, j + 1);
      forall k | 0 <= k < |r.v| ensures Alike(S, ft, ImageItem(S, env, ft, items[v.pairs[j + k].key.i]), r.v[k]) {
        if k > 0 {
          assert r.v[k] == tail.v[k - 1] && v.pairs[j + 1 + (k - 1)] == v.pairs[j + k];
        }
      }
    }
  }

  lemma {:induction false} AnyOrderList(S: Schema, env: Env, ft: FieldType, items: seq<Item>, v: Lua)
    requires GoodSchema(S) && (ft.Sub? ==> ft.typename in S)
    requires (forall k :: 0 <= k < |items| ==> TypedItem(S, ft, items[k])) && RendersList(S, ft, items, v)
    ensures var r := EncodeItems(S, env, ft, v, 0);
            r.Ok? && exists p :: IsPermutation(p, |items|) && AlikeList(S, ft, ImageItems(S, env, ft, items), r.v, p)
    decreases items, 1, 0
  {
    AnyOrderItems(S, env, ft, items, v, 0);
    hide GoodSchema, EncodeItem, EncodeItems, Renders, ImageItem, Alike;
    var r := EncodeItems(S, env, ft, v, 0);
    var p: seq<nat> := seq(|items|, k requires 0 <= k < |items| => v.pairs[k].key.i);
    assert IsPermutation(p, |items|);
    var images := ImageItems(S, env, ft, items);
    forall k | 0 <= k < |p| ensures p[k] < |images| && Alike(S, ft, images[p[k]], r.v[k]) {
      assert v.pairs[0 + k] == v.pairs[k];
    }
    assert AlikeList(S, ft, images, r.v, p);
  }

  lemma {:induction false} AnyOrderField(S: Schema, env: Env, f: Field, fv: FieldVal, table: Lua)
    requires GoodSchema(S) && (f.ftype.Sub? ==> f.ftype.typename in S) && TypedField(S, f, fv)
    requires table.Table? && Position(table.pairs, Name(f.name)) < |table.pairs|
    requires RendersField(S, f, fv, Get(table.pairs, Name(f.name)))
    ensures var r := EncodeField(S, env, f, table);
            r.Ok? && AlikeField(S, f, ImageField(S, env, f, fv), r.v)
    decreases fv, 2, 0
  {
    var v := Get(table.pairs, Name(f.name));
    if f.repeated {
      AnyOrderList(S, env, f.ftype, fv.items, v);
    } else if fv.One? {
      if f.ftype.Of? {
        DefaultIsScalarDefault(f.ftype.t);
      }
      AnyOrderItem(S, env, f.ftype, fv.item, v);
    } else {
      EmptyTableEncodes(S, env, S[f.ftype.typename], 0);
      EmptyIsAlike(S, f.ftype.typename);
    }
  }

  /** `b` is like `a` from field `i` on. */
  ghost predicate AlikeFrom(S: Schema, fields: seq<Field>, a: seq<FieldVal>, b: seq<FieldVal>, i: nat) {
    && i <= |fields| == |a| && |b| == |a| - i
    && forall k :: i <= k < |a| ==> AlikeField(S, fields[k], a[k], b[k - i])
  }

  lemma AlikeFromHere(S: Schema, fields: seq<Field>, a: seq<FieldVal>, x: FieldVal, b: seq<FieldVal>, i: nat)
    requires i < |fields| && AlikeFrom(S, fields, a, b, i + 1) && AlikeField(S, fields[i], a[i], x)
    ensures AlikeFrom(S, fields, a, [x] + b, i)
  {
    hide AlikeField;
  }

  lemma {:induction false} AnyOrderFields(S: Schema, env: Env, ty: string, m: Msg, v: Lua, i: nat)
    requires GoodSchema(S) && TypedMsg(S, ty, m) && RendersMsg(S, ty, m, v) && i <= |m.vals|
    ensures var r := EncodeFields(S, env, S[ty], v, i);
            r.Ok? && AlikeFrom(S, S[ty], ImageMsg(S, env, ty, m).vals, r.v, i)
    decreases m, 3, |m.vals| - i
  {
    if i < |m.vals| {
      assert GoodDescriptor(S, S[ty]);
      AnyOrderField(S, env, S[ty][i], m.vals[i], v);
      hide GoodSchema, RendersMsg, TypedMsg, AlikeFrom, AlikeField, EncodeField;
      AnyOrderFields(S, env, ty, m, v, i + 1);
      var x, tail := EncodeField(S, env, S[ty][i], v).v, EncodeFields(S, env, S[ty], v, i + 1).v;
      AlikeFromHere(S, S[ty], ImageMsg(S, env, ty, m).vals, x, tail, i);
    }
  }

  /**
   Encoding any reordering of a decoded message, at every depth, succeeds and gives the
   image up to the order of repeated elements; and the image is the message up to absent
   submessages exactly if every scalar survives.
   */
  lemma {:induction false} AnyOrder(S: Schema, env: Env, ty: string, m: Msg, v: Lua)
    requires GoodSchema(S) && TypedMsg(S, ty, m) && RendersMsg(S, ty, m, v)
    ensures var r, image := EncodeMsg(S, env, ty, v), ImageMsg(S, env, ty, m);
            r.Ok? && AlikeMsg(S, ty, image, r.v) && (SameUpToAbsence(S, ty, m, image) <==> Intact(m))
    decreases m, 4, 0
  {
    hide SameUpToAbsence, Intact, EncodeFields, AlikeField, GoodSchema, RendersField, ImageField, TypedField;
    AnyOrderFields(S, env, ty, m, v, 0);
    ImageSame(S, env, ty, m);
  }

  // ----- when the order itself survives

  /** The pairs of a decoded list in the order `visit`. */
  ghost function Visited(S: Schema, ft: FieldType, items: seq<Item>, visit: seq<nat>): (ps: seq<Pair>)
    requires GoodSchema(S) && (forall j :: 0 <= j < |items| ==> TypedItem(S, ft, items[j]))
    requires forall k :: 0 <= k < |visit| ==> visit[k] < |items|
    ensures |ps| == |visit|
  {
    seq(|visit|, k requires 0 <= k < |visit| => Pair(Index(visit[k]), DecodeItem(S, ft, items[visit[k]])))
  }

  ghost function VisitedImages(S: Schema, env: Env, ft: FieldType, items: seq<Item>, visit: seq<nat>): (r: seq<Item>)
    requires GoodSchema(S) && (forall j :: 0 <= j < |items| ==> TypedItem(S, ft, items[j]))
    requires forall k :: 0 <= k < |visit| ==> visit[k] < |items|
    ensures |r| == |visit|
  {
    seq(|visit|, k requires 0 <= k < |visit| => ImageItem(S, env, ft, items[visit[k]]))
  }

  /** List elements come back in the order in which Lua traverses the table. */
  lemma {:induction false} OrderIsTraversal(S: Schema, env: Env, ft: FieldType, items: seq<Item>, visit: seq<nat>, j: nat)
    requires GoodSchema(S) && (ft.Sub? ==> ft.typename in S)
    requires (forall k :: 0 <= k < |items| ==> TypedItem(S, ft, items[k])) && j <= |visit|
    requires forall k :: 0 <= k < |visit| ==> visit[k] < |items|
    ensures EncodeItems(S, env, ft, Table(Visited(S, ft, items, visit)), j)
            == Ok(VisitedImages(S, env, ft, items, visit)[j..])
    decreases |visit| - j
  {
    if j < |visit| {
      hide GoodSchema, EncodeItem, DecodeItem, ImageItem;
      RoundTripItem(S, env, ft, items[visit[j]]);
      OrderIsTraversal(S, env, ft, items, visit, j + 1);
      FromHere(VisitedImages(S, env, ft, items, visit), j);
    }
  }

  /**
   The list comes back in its own order exactly if every place is visited with an element
   that converts like the one it held; where no two elements convert alike, that is
   exactly a traversal by index.
   */
  lemma OrderSurvives(S: Schema, env: Env, ft: FieldType, items: seq<Item>, visit: seq<nat>)
    requires GoodSchema(S) && (ft.Sub? ==> ft.typename in S)
    requires (forall k :: 0 <= k < |items| ==> TypedItem(S, ft, items[k])) && IsPermutation(visit, |items|)
    ensures var r := EncodeItems(S, env, ft, Table(Visited(S, ft, items, visit)), 0);
            var images := ImageItems(S, env, ft, items);
            && (r == Ok(images) <==> forall k :: 0 <= k < |items| ==> images[visit[k]] == images[k])
            && ((forall i, j :: 0 <= i < j < |images| ==> images[i] != images[j]) ==>
                  (r == Ok(images) <==> visit == Identity(|items|)))
  {
    OrderIsTraversal(S, env, ft, items, visit, 0);
    hide GoodSchema, EncodeItems, DecodeItem, ImageItem;
    var images, there := ImageItems(S, env, ft, items), VisitedImages(S, env, ft, items, visit);
    assert there[0..] == there;
    assert forall k :: 0 <= k < |items| ==> there[k] == images[visit[k]];
    if forall k :: 0 <= k < |items| ==> images[visit[k]] == images[k] {
      assert there == images;
    }
    if (forall i, j :: 0 <= i < j < |images| ==> images[i] != images[j]) && there == images {
      forall k | 0 <= k < |items| ensures visit[k] == k {
        assert there[k] == images[k];
      }
    }
  }
}
