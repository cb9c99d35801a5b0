/**
 Lua values as the codec sees them, and the conversions between them and the scalar
 fields of a message. Numbers are integers; Lua 5.1 keeps them as doubles.
 */
module LuaValues {

  datatype Key = Name(s: string) | Index(i: int)
  datatype Pair = Pair(key: Key, value: Lua)

  /** A table lists its pairs in the order `lua_next` visits them. */
  datatype Lua = Nil | Boolean(b: bool) | Number(n: int) | String(s: string) | Table(pairs: seq<Pair>) | Function(ref: nat)

  function KeyOf(k: Key): Lua {
    match k
    case Name(s) => String(s)
    case Index(i) => Number(i)
  }

  /** Where a key is in a table, or the number of pairs. */
  function Position(pairs: seq<Pair>, key: Key): (k: nat)
    ensures k <= |pairs|
    ensures k < |pairs| ==> pairs[k].key == key
    ensures forall i :: 0 <= i < k ==> pairs[i].key != key
  {
    if pairs == [] || pairs[0].key == key then 0 else 1 + Position(pairs[1..], key)
  }

  function Get(pairs: seq<Pair>, key: Key): Lua {
    var k := Position(pairs, key);
    if k < |pairs| then pairs[k].value else Nil
  }

  /** A new key is visited last; a key set to nil disappears. */
  function Set(pairs: seq<Pair>, key: Key, value: Lua): seq<Pair> {
    var k := Position(pairs, key);
    if value == Nil then (if k < |pairs| then pairs[..k] + pairs[k + 1..] else pairs)
    else if k < |pairs| then pairs[k := Pair(key, value)]
    else pairs + [Pair(key, value)]
  }

  lemma SetNew(pairs: seq<Pair>, key: Key, value: Lua)
    requires value != Nil && forall i :: 0 <= i < |pairs| ==> pairs[i].key != key
    ensures Set(pairs, key, value) == pairs + [Pair(key, value)]
  {
  }

  ghost predicate DistinctKeys(pairs: seq<Pair>) {
    forall i, j :: 0 <= i < j < |pairs| ==> pairs[i].key != pairs[j].key
  }

  lemma PositionIs(pairs: seq<Pair>, key: Key, k: nat)
    requires k <= |pairs| && (forall i :: 0 <= i < k ==> pairs[i].key != key) && (k < |pairs| ==> pairs[k].key == key)
    ensures Position(pairs, key) == k
  {
  }

  /** Setting a key, to nil or to a value, is seen under that key and under no other. */
  lemma SetThenGet(pairs: seq<Pair>, key: Key, value: Lua, other: Key)
    requires DistinctKeys(pairs)
    ensures DistinctKeys(Set(pairs, key, value))
    ensures Get(Set(pairs, key, value), other) == if other == key then value else Get(pairs, other)
  {
    hide Position;
    var after, k, p := Set(pairs, key, value), Position(pairs, key), Position(pairs, other);
    if value == Nil && k < |pairs| {
      assert after == pairs[..k] + pairs[k + 1..];
      PositionIs(after, other, if other == key then |after| else if p < k then p else p - 1);
    } else if value != Nil {
      PositionIs(after, other, if other == key then k else if p < |pairs| then p else |after|);
    }
  }

  // ----- integers as doubles

  const MANTISSA: nat := 0x20_0000_0000_0000
  const WORD32: nat := 0x1_0000_0000
  const HALF32: nat := 0x8000_0000
  const WORD64: nat := 0x1_0000_0000_0000_0000
  const HALF64: nat := 0x8000_0000_0000_0000

  /** The distance between neighbouring doubles around `a`. */
  function Spacing(a: nat): (u: nat)
    ensures u > 0
  {
    if a < MANTISSA then 1 else 2 * Spacing(a / 2)
  }

  /** The nearest multiple of `u`, ties to an even multiple. */
  function NearestMultiple(a: nat, u: nat): nat
    requires u > 0
  {
    var q, r := a / u, a % u;
    if 2 * r < u || (2 * r == u && q % 2 == 0) then q * u else (q + 1) * u
  }

  /** An integer converted to a double, as an integer. */
  function AsDouble(n: int): int {
    if n < 0 then 0 - NearestMultiple(0 - n, Spacing(0 - n)) else NearestMultiple(n, Spacing(n))
  }

  lemma SmallIsExact(n: int)
    requires 0 - MANTISSA < n < MANTISSA
    ensures AsDouble(n) == n
  {
  }

  function Double2(k: nat): nat {
    if k == 0 then 1 else 2 * Double2(k - 1)
  }

  lemma {:induction false} SpacingBounds(a: nat, k: nat)
    requires a < MANTISSA * Double2(k)
    ensures a < MANTISSA * Spacing(a) && Spacing(a) <= Double2(k)
    decreases k
  {
    if a >= MANTISSA {
      SpacingBounds(a / 2, k - 1);
    }
  }

  lemma NearestBounds(a: nat, u: nat)
    requires u > 0 && a < MANTISSA * u
    ensures NearestMultiple(a, u) <= MANTISSA * u
  {
    var q := a / u;
    assert q * u <= a;
    assert q < MANTISSA;
    assert (q + 1) * u <= MANTISSA * u;
    assert q * u <= (q + 1) * u;
  }

  /** A 64-bit integer converted to a double stays within the 64-bit range, its upper end included. */
  lemma DoubleStaysInRange(n: int)
    requires 0 - HALF64 <= n < HALF64
    ensures 0 - HALF64 <= AsDouble(n) <= HALF64
  {
    if n == 0 - HALF64 {
      assert Spacing(0x8000_0000_0000_0000) == 0x800;
    } else {
      var a := if n < 0 then 0 - n else n;
      assert Double2(10) == 0x400;
      SpacingBounds(a, 10);
      NearestBounds(a, Spacing(a));
    }
  }

  // ----- C integer conversions

  function Unsigned(n: int, range: nat): nat
    requires range > 0
  {
    n % range
  }

  function Signed(n: int, range: nat): int
    requires range > 0
  {
    var u := n % range;
    if 2 * u < range then u else u - range
  }

  // ----- scalars

  datatype ScalarType = Int32 | Int64 | UInt32 | UInt64 | Bool | Enum | Text
  datatype Scalar = Num(n: int) | Flag(b: bool) | Chars(s: string)

  predicate HasScalarType(t: ScalarType, v: Scalar) {
    match t
    case Int32 => v.Num? && 0 - HALF32 <= v.n < HALF32
    case Enum => v.Num? && 0 - HALF32 <= v.n < HALF32
    case UInt32 => v.Num? && 0 <= v.n < WORD32
    case Int64 => v.Num? && 0 - HALF64 <= v.n < HALF64
    case UInt64 => v.Num? && 0 <= v.n < WORD64
    case Bool => v.Flag?
    case Text => v.Chars?
  }

  function DefaultScalar(t: ScalarType): Scalar {
    match t
    case Bool => Flag(false)
    case Text => Chars("")
    case _ => Num(0)
  }

  /** The value of a C string: up to the first NUL. */
  function CString(s: string): string {
    if s == [] || s[0] == '\0' then [] else [s[0]] + CString(s[1..])
  }

  lemma {:induction false} CStringKeeps(s: string)
    ensures CString(s) == s <==> '\0' !in s
  {
    if s != [] {
      CStringKeeps(s[1..]);
      assert s == [s[0]] + s[1..];
    }
  }

  lemma {:induction false} CStringTwice(s: string)
    ensures CString(CString(s)) == CString(s)
  {
    if s != [] && s[0] != '\0' {
      CStringTwice(s[1..]);
      assert CString(s)[1..] == CString(s[1..]);
    }
  }

  /** `lua_pushinteger`, `lua_pushboolean`, `lua_pushstring`. */
  function ToLua(v: Scalar): Lua {
    match v
    case Num(n) => Number(AsDouble(Signed(n, WORD64)))
    case Flag(b) => Boolean(b)
    case Chars(s) => String(CString(s))
  }

  /** How Lua reads a number from a string and writes one as a string. */
  datatype Env = Env(numberOf: string -> int, textOf: int -> string)

  function ToInteger(env: Env, v: Lua): int {
    match v
    case Number(n) => n
    case String(s) => env.numberOf(s)
    case _ => 0
  }

  datatype Converted = Value(v: Scalar) | Threw

  /** The value a field is set to; constructing a string from no characters throws. */
  function FromLua(env: Env, t: ScalarType, v: Lua): Converted {
    match t
    case Int32 => Value(Num(Signed(ToInteger(env, v), WORD32)))
    case Enum => Value(Num(Signed(ToInteger(env, v), WORD32)))
    case UInt32 => Value(Num(Unsigned(ToInteger(env, v), WORD32)))
    case Int64 => Value(Num(Signed(ToInteger(env, v), WORD64)))
    case UInt64 => Value(Num(Unsigned(ToInteger(env, v), WORD64)))
    case Bool => Value(Flag(v != Nil && v != Boolean(false)))
    case Text =>
      if v.String? then Value(Chars(CString(v.s)))
      else if v.Number? then Value(Chars(CString(env.textOf(v.n))))
      else Threw
  }

  /** What can be lost: integers that are no doubles, and characters after a NUL. */
  predicate Survives(v: Scalar) {
    match v
    case Num(n) => AsDouble(Signed(n, WORD64)) == Signed(n, WORD64)
    case Flag(_) => true
    case Chars(s) => '\0' !in s
  }

  lemma RemainderOf(n: int, range: nat)
    requires range > 0
    ensures 0 <= n < range ==> n % range == n
    ensures 0 - range <= n < 0 ==> n % range == n + range
  {
    if 0 - range <= n < 0 {
      assert n % range == (n + range) % range;
    }
  }

  lemma NumberRoundTrip(env: Env, t: ScalarType, n: int)
    requires HasScalarType(t, Num(n))
    ensures var c := FromLua(env, t, ToLua(Num(n)));
            && c.Value? && HasScalarType(t, c.v)
            && (c.v == Num(n) <==> Survives(Num(n)))
  {
    RemainderOf(n, WORD64);
    RemainderOf(n, WORD32);
    var s := Signed(n, WORD64);
    var d := AsDouble(s);
    if t.Int64? || t.UInt64? {
      DoubleStaysInRange(s);
      hide AsDouble;
      RemainderOf(d, WORD64);
    } else {
      SmallIsExact(n);
      hide AsDouble;
      assert s == n == d;
    }
  }

  /** A scalar sent to Lua and back is always a scalar of its type, and the same one exactly if it survives. */
  lemma ScalarRoundTrip(env: Env, t: ScalarType, v: Scalar)
    requires HasScalarType(t, v)
    ensures var c := FromLua(env, t, ToLua(v));
            && c.Value? && HasScalarType(t, c.v)
            && (c.v == v <==> Survives(v))
  {
    hide AsDouble, Signed, Unsigned, CString;
    match v
    case Num(n) => NumberRoundTrip(env, t, n);
    case Flag(_) =>
    case Chars(s) =>
      CStringKeeps(s);
      CStringTwice(s);
  }
}
