/**
 Which tables encode, and how the encoding of any other ends: decided by the place of the
 first value that does not fit.
 */
module CodecFailures {
  import opened LuaValues
  import opened CodecSpec
  import opened CodecTheorems

  // ----- tables that encode

  /** A text needs a string or a number, a submessage needs a table; any value serves for any other scalar. */
  predicate FitsHere(ft: FieldType, v: Lua) {
    match ft
    case Of(t) => t.Text? ==> v.String? || v.Number?
    case Sub(_) => v.Table?
  }

  /** Every text and every submessage that will be looked at fits, at any depth. */
  ghost predicate FitsItem(S: Schema, ft: FieldType, v: Lua)
    requires GoodSchema(S) && (ft.Sub? ==> ft.typename in S)
    decreases v, 1
  {
    FitsHere(ft, v) && (ft.Sub? ==> forall i :: 0 <= i < |S[ft.typename]| ==> FitsField(S, S[ft.typename], i, v))
  }

  ghost predicate FitsField(S: Schema, fields: seq<Field>, i: nat, table: Lua)
    requires GoodSchema(S) && GoodDescriptor(S, fields) && i < |fields| && table.Table?
    decreases table, 0
  {
    var f := fields[i];
    var k := Position(table.pairs, Name(f.name));
    k < |table.pairs| ==>
      var v := table.pairs[k].value;
      if f.repeated then
        v.Table? ==> forall j :: 0 <= j < |v.pairs| && v.pairs[j].value != Nil ==> FitsItem(S, f.ftype, v.pairs[j].value)
      else v != Nil ==> FitsItem(S, f.ftype, v)
  }

  ghost predicate FitsUpTo(S: Schema, ft: FieldType, list: Lua, j: nat)
    requires GoodSchema(S) && (ft.Sub? ==> ft.typename in S) && list.Table? && j <= |list.pairs|
  {
    forall k :: 0 <= k < j && list.pairs[k].value != Nil ==> FitsItem(S, ft, list.pairs[k].value)
  }

  lemma {:induction false} FittingItemEncodes(S: Schema, env: Env, ft: FieldType, v: Lua)
    requires GoodSchema(S) && (ft.Sub? ==> ft.typename in S) && FitsItem(S, ft, v)
    ensures EncodeItem(S, env, ft, v).Ok?
    decreases v, 4, 0
  {
    if ft.Sub? {
      assert GoodDescriptor(S, S[ft.typename]);
      FittingFieldsEncode(S, env, S[ft.typename], v, 0);
    }
  }

  lemma {:induction false} FittingItemsEncode(S: Schema, env: Env, ft: FieldType, list: Lua, j: nat)
    requires GoodSchema(S) && (ft.Sub? ==> ft.typename in S) && list.Table? && j <= |list.pairs|
    requires FitsUpTo(S, ft, list, |list.pairs|)
    ensures EncodeItems(S, env, ft, list, j).Ok?
    decreases list, 0, |list.pairs| - j
  {
    if j < |list.pairs| {
      if list.pairs[j].value != Nil {
        FittingItemEncodes(S, env, ft, list.pairs[j].value);
      }
      FittingItemsEncode(S, env, ft, list, j + 1);
    }
  }

  lemma {:induction false} FittingFieldEncodes(S: Schema, env: Env, fields: seq<Field>, i: nat, table: Lua)
    requires GoodSchema(S) && GoodDescriptor(S, fields) && i < |fields| && table.Table? && FitsField(S, fields, i, table)
    ensures EncodeField(S, env, fields[i], table).Ok?
    decreases table, 1, 0
  {
    var f := fields[i];
    var k := Position(table.pairs, Name(f.name));
    if k < |table.pairs| && table.pairs[k].value != Nil {
      var v := table.pairs[k].value;
      if f.repeated && v.Table? {
        FittingItemsEncode(S, env, f.ftype, v, 0);
      } else if !f.repeated {
        FittingItemEncodes(S, env, f.ftype, v);
      }
    }
  }

  lemma {:induction false} FittingFieldsEncode(S: Schema, env: Env, fields: seq<Field>, table: Lua, i: nat)
    requires GoodSchema(S) && GoodDescriptor(S, fields) && table.Table? && i <= |fields|
    requires forall k :: i <= k < |fields| ==> FitsField(S, fields, k, table)
    ensures EncodeFields(S, env, fields, table, i).Ok?
    decreases table, 2, |fields| - i
  {
    if i < |fields| {
      FittingFieldEncodes(S, env, fields, i, table);
      FittingFieldsEncode(S, env, fields, table, i + 1);
    }
  }

  // ----- the place of the first misfit

  /** A step down: into a singular field, or to an element of a repeated one. */
  datatype Step = Into(field: nat) | Element(field: nat, index: nat, last: bool)

  /** `path` leads to the first value that does not fit; `text` says that it should have been a text. */
  ghost predicate FirstMisfit(S: Schema, ft: FieldType, v: Lua, path: seq<Step>, text: bool)
    requires GoodSchema(S) && (ft.Sub? ==> ft.typename in S)
    decreases path
  {
    if path == [] then !FitsHere(ft, v) && (text <==> ft == Of(Text))
    else
      && ft.Sub? && v.Table? && path[0].field < |S[ft.typename]|
      && (forall i :: 0 <= i < path[0].field ==> FitsField(S, S[ft.typename], i, v))
      && MisfitInField(S, S[ft.typename], v, path, text)
  }

  ghost predicate MisfitInField(S: Schema, fields: seq<Field>, table: Lua, path: seq<Step>, text: bool)
    requires GoodSchema(S) && GoodDescriptor(S, fields) && table.Table? && path != [] && path[0].field < |fields|
    decreases path, 0
  {
    var f := fields[path[0].field];
    var k := Position(table.pairs, Name(f.name));
    && k < |table.pairs|
    && var v := table.pairs[k].value;
    match path[0]
    case Into(_) => !f.repeated && v != Nil && FirstMisfit(S, f.ftype, v, path[1..], text)
    case Element(_, j, last) =>
      && f.repeated && v.Table? && j < |v.pairs| && (last <==> j + 1 == |v.pairs|)
      && FitsUpTo(S, f.ftype, v, j) && v.pairs[j].value != Nil
      && FirstMisfit(S, f.ftype, v.pairs[j].value, path[1..], text)
  }

  lemma {:induction false} FindMisfit(S: Schema, ft: FieldType, v: Lua) returns (path: seq<Step>, text: bool)
    requires GoodSchema(S) && (ft.Sub? ==> ft.typename in S) && !FitsItem(S, ft, v)
    ensures FirstMisfit(S, ft, v, path, text)
    decreases v, 1
  {
    if !FitsHere(ft, v) {
      return [], ft == Of(Text);
    }
    var fields := S[ft.typename];
    assert GoodDescriptor(S, fields);
    var i := 0;
    while FitsField(S, fields, i, v)
      invariant 0 <= i < |fields|
      invariant forall k :: 0 <= k < i ==> FitsField(S, fields, k, v)
      invariant exists k :: i <= k < |fields| && !FitsField(S, fields, k, v)
      decreases |fields| - i
    {
      i := i + 1;
    }
    path, text := FindMisfitInField(S, fields, i, v);
  }

  lemma {:induction false} FindMisfitInField(S: Schema, fields: seq<Field>, i: nat, table: Lua) returns (path: seq<Step>, text: bool)
    requires GoodSchema(S) && GoodDescriptor(S, fields) && i < |fields| && table.Table? && !FitsField(S, fields, i, table)
    ensures path != [] && path[0].field == i && MisfitInField(S, fields, table, path, text)
    decreases table, 0
  {
    var f := fields[i];
    var v := table.pairs[Position(table.pairs, Name(f.name))].value;
    if !f.repeated {
      var rest;
      rest, text := FindMisfit(S, f.ftype, v);
      path := [Into(i)] + rest;
      assert path[1..] == rest;
    } else {
      var j := 0;
      while v.pairs[j].value == Nil || FitsItem(S, f.ftype, v.pairs[j].value)
        invariant 0 <= j < |v.pairs| && FitsUpTo(S, f.ftype, v, j)
        invariant exists k :: j <= k < |v.pairs| && v.pairs[k].value != Nil && !FitsItem(S, f.ftype, v.pairs[k].value)
        decreases |v.pairs| - j
      {
        j := j + 1;
      }
      var rest;
      rest, text := FindMisfit(S, f.ftype, v.pairs[j].value);
      path := [Element(i, j, j + 1 == |v.pairs|)] + rest;
      assert path[1..] == rest;
    }
  }

  // ----- what the place says about the outcome

  /** Every element on the way is the last of its list. */
  predicate AllLast(path: seq<Step>) {
    forall k :: 0 <= k < |path| && path[k].Element? ==> path[k].last
  }

  predicate Early(s: Step) {
    s.Element? && !s.last
  }

  /** The outermost element on the way is not the last of its list, and every element inside it is. */
  ghost predicate OneEarly(path: seq<Step>) {
    exists k :: 0 <= k < |path| && Early(path[k]) && (forall i :: 0 <= i < k ==> path[i].Into?) && AllLast(path[k + 1..])
  }

  /** An element that is not the last of its list lies inside another element. */
  ghost predicate EarlyInside(path: seq<Step>) {
    exists i, k :: 0 <= i < k < |path| && path[i].Element? && Early(path[k])
  }

  datatype Ending = Clean | Strays | Raises | Throws

  /** How an encoding ends, told from the inside out. */
  function EndingOf(path: seq<Step>, text: bool): Ending {
    if text then Throws
    else if path == [] then Clean
    else
      var inner := EndingOf(path[1..], text);
      if path[0].Into? then inner
      else if inner == Clean then (if path[0].last then Clean else Strays)
      else Raises
  }

  lemma {:induction false} EndingIs(path: seq<Step>)
    ensures EndingOf(path, false) == Clean <==> AllLast(path)
    ensures EndingOf(path, false) == Strays <==> OneEarly(path)
    ensures EndingOf(path, false) == Raises <==> EarlyInside(path)
    ensures EndingOf(path, false) != Throws
  {
    if path != [] {
      EndingIs(path[1..]);
      LastShift(path);
      OneEarlyShift(path);
      EarlyInsideShift(path);
    }
  }

  lemma LastShift(path: seq<Step>)
    requires path != []
    ensures AllLast(path) <==> !Early(path[0]) && AllLast(path[1..])
  {
    var rest := path[1..];
    if AllLast(path) {
      forall k | 0 <= k < |rest| && rest[k].Element? ensures rest[k].last {
        assert path[k + 1].last;
      }
    }
    if !Early(path[0]) && AllLast(rest) {
      forall k | 0 <= k < |path| && path[k].Element? ensures path[k].last {
        if k > 0 {
          assert rest[k - 1].last;
        }
      }
    }
  }

  lemma OneEarlyShift(path: seq<Step>)
    requires path != []
    ensures OneEarly(path) <==> if path[0].Into? then OneEarly(path[1..]) else !path[0].last && AllLast(path[1..])
  {
    var rest := path[1..];
    if OneEarly(path) {
      var k :| 0 <= k < |path| && Early(path[k]) && (forall i :: 0 <= i < k ==> path[i].Into?) && AllLast(path[k + 1..]);
      if k > 0 {
        assert path[0].Into?;
        assert rest[k - 1] == path[k] && rest[k..] == path[k + 1..];
        forall i | 0 <= i < k - 1 ensures rest[i].Into? {
          assert path[i + 1].Into?;
        }
      }
    }
    if path[0].Into? && OneEarly(rest) {
      var k :| 0 <= k < |rest| && Early(rest[k]) && (forall i :: 0 <= i < k ==> rest[i].Into?) && AllLast(rest[k + 1..]);
      assert Early(path[k + 1]) && path[k + 2..] == rest[k + 1..];
      forall i | 0 <= i < k + 1 ensures path[i].Into? {
        if i > 0 {
          assert rest[i - 1].Into?;
        }
      }
    }
    if Early(path[0]) && AllLast(rest) {
      assert path[0 + 1..] == rest;
    }
  }

  lemma EarlyInsideShift(path: seq<Step>)
    requires path != []
    ensures EarlyInside(path) <==> EarlyInside(path[1..]) || (path[0].Element? && !AllLast(path[1..]))
  {
    var rest := path[1..];
    if EarlyInside(path) {
      var i, k :| 0 <= i < k < |path| && path[i].Element? && Early(path[k]);
      assert Early(rest[k - 1]);
      if i > 0 {
        assert rest[i - 1].Element?;
      }
    }
    if EarlyInside(rest) {
      var i, k :| 0 <= i < k < |rest| && rest[i].Element? && Early(rest[k]);
      assert path[i + 1].Element? && Early(path[k + 1]);
    }
    if path[0].Element? && !AllLast(rest) {
      var k :| 0 <= k < |rest| && rest[k].Element? && !rest[k].last;
      assert path[0].Element? && Early(path[k + 1]);
    }
  }

  /** An outcome that ends in the given way. */
  predicate EndsAs<T>(o: Outcome<T>, e: Ending) {
    match e
    case Clean => o.Fail? && o.junk == []
    case Strays => o.Fail? && |o.junk| == 2
    case Raises => o.LuaError?
    case Throws => o.Exception?
  }

  lemma {:induction false} ItemEndsByPath(S: Schema, env: Env, ft: FieldType, v: Lua, path: seq<Step>, text: bool)
    requires GoodSchema(S) && (ft.Sub? ==> ft.typename in S) && FirstMisfit(S, ft, v, path, text)
    ensures EndsAs(EncodeItem(S, env, ft, v), EndingOf(path, text))
    decreases path, 2, 0
  {
    if path != [] {
      assert GoodDescriptor(S, S[ft.typename]);
      FieldsEndByPath(S, env, S[ft.typename], v, 0, path, text);
    }
  }

  lemma {:induction false} FieldsEndByPath(S: Schema, env: Env, fields: seq<Field>, table: Lua, i: nat, path: seq<Step>, text: bool)
    requires GoodSchema(S) && GoodDescriptor(S, fields) && table.Table? && path != [] && i <= path[0].field < |fields|
    requires forall k :: 0 <= k < path[0].field ==> FitsField(S, fields, k, table)
    requires MisfitInField(S, fields, table, path, text)
    ensures EndsAs(EncodeFields(S, env, fields, table, i), EndingOf(path, text))
    decreases path, 1, |fields| - i
  {
    hide FitsField, MisfitInField;
    if i < path[0].field {
      FittingFieldEncodes(S, env, fields, i, table);
      FieldsEndByPath(S, env, fields, table, i + 1, path, text);
    } else {
      FieldEndsByPath(S, env, fields, table, path, text);
    }
  }

  lemma {:induction false} FieldEndsByPath(S: Schema, env: Env, fields: seq<Field>, table: Lua, path: seq<Step>, text: bool)
    requires GoodSchema(S) && GoodDescriptor(S, fields) && table.Table? && path != [] && path[0].field < |fields|
    requires MisfitInField(S, fields, table, path, text)
    ensures EndsAs(EncodeField(S, env, fields[path[0].field], table), EndingOf(path, text))
    decreases path, 0, 0
  {
    var f := fields[path[0].field];
    var v := table.pairs[Position(table.pairs, Name(f.name))].value;
    match path[0]
    case Into(_) =>
      hide FirstMisfit, GoodSchema, EncodeItem;
      ItemEndsByPath(S, env, f.ftype, v, path[1..], text);
      ItemLeavesLittle(S, env, f.ftype, v);
    case Element(_, j, last) =>
      hide FirstMisfit, GoodSchema, EncodeItem;
      ItemEndsByPath(S, env, f.ftype, v.pairs[j].value, path[1..], text);
      ItemsEndAt(S, env, f.ftype, v, 0, j, EndingOf(path[1..], text));
      EndingIs(path[1..]);
      TextThrows(path[1..]);
  }

  /** Elements before the `p`-th fit; the `p`-th ends the encoding of the list. */
  lemma {:induction false} ItemsEndAt(S: Schema, env: Env, ft: FieldType, list: Lua, j: nat, p: nat, inner: Ending)
    requires GoodSchema(S) && (ft.Sub? ==> ft.typename in S) && list.Table? && j <= p < |list.pairs|
    requires FitsUpTo(S, ft, list, p) && list.pairs[p].value != Nil
    requires EndsAs(EncodeItem(S, env, ft, list.pairs[p].value), inner)
    ensures var o := EncodeItems(S, env, ft, list, j);
            match inner
            case Clean => o == if p + 1 < |list.pairs| then Fail([list, KeyOf(list.pairs[p + 1].key)]) else Fail([])
            case Strays => o == LuaError
            case Raises => o == LuaError
            case Throws => o == Exception
    decreases p - j
  {
    hide GoodSchema, EncodeItem, FitsItem;
    if j < p {
      if list.pairs[j].value != Nil {
        FittingItemEncodes(S, env, ft, list.pairs[j].value);
      }
      ItemsEndAt(S, env, ft, list, j + 1, p, inner);
    }
  }

  /** For every schema: a wrong element anywhere but last, after elements that fit, leaves the list and the next key behind. */
  lemma StrayValuesHappen(S: Schema, env: Env, ty: string, list: Lua, p: nat)
    requires GoodSchema(S) && ty in S && list.Table? && p + 1 < |list.pairs|
    requires FitsUpTo(S, Sub(ty), list, p) && list.pairs[p].value != Nil && !list.pairs[p].value.Table?
    ensures EncodeItems(S, env, Sub(ty), list, 0) == Fail([list, KeyOf(list.pairs[p + 1].key)])
  {
    ItemsEndAt(S, env, Sub(ty), list, 0, p, Clean);
  }

  lemma MsgEndsByPath(S: Schema, env: Env, ty: string, v: Lua, path: seq<Step>, text: bool)
    requires GoodSchema(S) && ty in S && FirstMisfit(S, Sub(ty), v, path, text)
    ensures EndsAs(EncodeMsg(S, env, ty, v), EndingOf(path, text))
  {
    ItemEndsByPath(S, env, Sub(ty), v, path, text);
  }

  /**
   For every schema and every value, decided by the value alone: encoding succeeds exactly
   when everything fits. Otherwise, at the first misfit, a text makes it throw; a
   submessage makes it fail cleanly if every list element on the way is the last of its
   list, leave two stray values if only the outermost list element is not, and raise a Lua
   error if one that is not lies inside another.
   */
  lemma EncodingEnds(S: Schema, env: Env, ty: string, v: Lua)
    requires GoodSchema(S) && ty in S
    ensures var o := EncodeMsg(S, env, ty, v);
            && (o.Ok? <==> FitsItem(S, Sub(ty), v))
            && (o.Exception? <==> exists path :: FirstMisfit(S, Sub(ty), v, path, true))
            && (o == Fail([]) <==> exists path :: FirstMisfit(S, Sub(ty), v, path, false) && AllLast(path))
            && ((o.Fail? && |o.junk| == 2) <==> exists path :: FirstMisfit(S, Sub(ty), v, path, false) && OneEarly(path))
            && (o.LuaError? <==> exists path :: FirstMisfit(S, Sub(ty), v, path, false) && EarlyInside(path))
  {
    hide FirstMisfit, EncodeMsg, AllLast, OneEarly, EarlyInside, EndingOf;
    if FitsItem(S, Sub(ty), v) {
      FittingMsgEncodes(S, env, ty, v);
      hide FitsItem;
    } else {
      hide FitsItem;
      var path, text := FindMisfit(S, Sub(ty), v);
      MsgEndsByPath(S, env, ty, v, path, text);
      EndingIs(path);
      TextThrows(path);
      if text {
        assert FirstMisfit(S, Sub(ty), v, path, true);
      }
    }
    forall path, text | FirstMisfit(S, Sub(ty), v, path, text)
      ensures EndsAs(EncodeMsg(S, env, ty, v), EndingOf(path, text))
    {
      MsgEndsByPath(S, env, ty, v, path, text);
    }
    forall path
      ensures EndingOf(path, true) == Throws && EndingOf(path, false) != Throws
      ensures EndingOf(path, false) == Clean <==> AllLast(path)
      ensures EndingOf(path, false) == Strays <==> OneEarly(path)
      ensures EndingOf(path, false) == Raises <==> EarlyInside(path)
    {
      EndingIs(path);
      TextThrows(path);
    }
  }

  lemma TextThrows(path: seq<Step>)
    ensures EndingOf(path, true) == Throws
  {
  }

  lemma FittingMsgEncodes(S: Schema, env: Env, ty: string, v: Lua)
    requires GoodSchema(S) && ty in S && FitsItem(S, Sub(ty), v)
    ensures EncodeMsg(S, env, ty, v).Ok?
  {
    FittingItemEncodes(S, env, Sub(ty), v);
  }
}
