/**
 Integers converted to doubles go to the nearest one.
 */
module Doubles {
  import opened LuaValues

  function Magnitude(n: int): nat {
    if n < 0 then 0 - n else n
  }

  /** A whole number with at most 53 significant bits. */
  ghost predicate IsDouble(d: int) {
    exists q: nat, k: nat :: IsScaled(Magnitude(d), q, k)
  }

  ghost predicate IsScaled(a: nat, q: nat, k: nat) {
    q <= MANTISSA && a == q * Double2(k)
  }

  /** `d` is a double, and no double is nearer to `n`. */
  ghost predicate Nearest(n: int, d: int) {
    IsDouble(d) && forall x :: IsDouble(x) ==> Magnitude(d - n) <= Magnitude(x - n)
  }

  lemma {:induction false} SpacingIsPower(a: nat) returns (k: nat)
    ensures Spacing(a) == Double2(k) && a < MANTISSA * Double2(k)
    ensures k > 0 ==> MANTISSA * Double2(k - 1) <= a
  {
    if a < MANTISSA {
      return 0;
    }
    var j := SpacingIsPower(a / 2);
    k := j + 1;
    assert Double2(k) == 2 * Double2(j);
  }

  lemma {:induction false} PowersDivide(k: nat, j: nat) returns (c: nat)
    requires k <= j
    ensures Double2(j) == c * Double2(k)
    decreases j
  {
    if j == k {
      return 1;
    }
    c := PowersDivide(k, j - 1);
    assert Double2(j) == 2 * (c * Double2(k)) == (2 * c) * Double2(k);
    c := 2 * c;
  }

  /** The two multiples of `u` around `a` are no nearer than the rounded one. */
  lemma RoundedIsNear(a: nat, u: nat)
    requires u > 0
    ensures (a / u) * u + a % u == a
    ensures Magnitude(NearestMultiple(a, u) - a) <= a % u && Magnitude(NearestMultiple(a, u) - a) <= u - a % u
  {
    assert (a / u + 1) * u == (a / u) * u + u;
  }

  /** Between two neighbouring multiples there is no other. */
  lemma MultiplesApart(m: nat, q: nat, u: nat)
    ensures m <= q ==> m * u <= q * u
    ensures m > q ==> m * u >= q * u + u
  {
    if m <= q {
      ProductGrows(m, u, q, u);
    } else {
      ProductGrows(q + 1, u, m, u);
    }
  }

  lemma NearestMultipleIs(a: nat, u: nat, m: nat, x: nat)
    requires u > 0 && x == m * u
    ensures Magnitude(NearestMultiple(a, u) - a) <= Magnitude(x - a)
  {
    hide NearestMultiple;
    RoundedIsNear(a, u);
    MultiplesApart(m, a / u, u);
  }

  lemma {:induction false} PowersGrow(j: nat, k: nat)
    requires j <= k
    ensures 0 < Double2(j) <= Double2(k)
    decreases k
  {
    if j < k {
      PowersGrow(j, k - 1);
    } else if k > 0 {
      PowersGrow(k - 1, k - 1);
    }
  }

  lemma ProductGrows(a: nat, b: nat, c: nat, d: nat)
    requires a <= c && b <= d
    ensures a * b <= c * d
  {
    assert a * b <= c * b;
  }

  /** Coarser multiples are multiples. */
  lemma NearestOfCoarse(a: nat, k: nat, q: nat, j: nat)
    requires k <= j && Double2(k) > 0
    ensures Magnitude(NearestMultiple(a, Double2(k)) - a) <= Magnitude(q * Double2(j) - a)
  {
    var c := PowersDivide(k, j);
    hide NearestMultiple, Double2;
    Regroup(q, c, Double2(k), Double2(j));
    NearestMultipleIs(a, Double2(k), q * c, q * Double2(j));
  }

  /** Finer ones lie below a multiple that is no further away. */
  lemma NearestOfFine(a: nat, k: nat, q: nat, j: nat)
    requires j < k && q <= MANTISSA && MANTISSA * Double2(k - 1) <= a && Double2(k) > 0
    ensures Magnitude(NearestMultiple(a, Double2(k)) - a) <= Magnitude(q * Double2(j) - a)
  {
    PowersGrow(j, k - 1);
    var half, u := Double2(k - 1), Double2(k);
    assert u == 2 * half;
    hide NearestMultiple, Double2;
    ProductGrows(q, Double2(j), MANTISSA, half);
    HalfOfTwice(half, u);
    NearestMultipleIs(a, u, MANTISSA / 2, MANTISSA * half);
  }

  lemma HalfOfTwice(half: nat, u: nat)
    requires u == 2 * half
    ensures (MANTISSA / 2) * u == MANTISSA * half
  {
  }

  lemma NearestOfScaled(a: nat, q: nat, j: nat)
    requires q <= MANTISSA
    ensures Magnitude(NearestMultiple(a, Spacing(a)) - a) <= Magnitude(q * Double2(j) - a)
  {
    hide NearestMultiple, Double2, Spacing;
    var k := SpacingIsPower(a);
    if k <= j {
      NearestOfCoarse(a, k, q, j);
    } else {
      NearestOfFine(a, k, q, j);
    }
  }

  lemma Regroup(q: nat, c: nat, u: nat, y: nat)
    requires y == c * u
    ensures q * y == (q * c) * u
  {
  }

  lemma QuotientBelow(a: nat, u: nat, m: nat)
    requires u > 0 && a < m * u
    ensures a / u < m
  {
    if a / u >= m {
      ProductGrows(m, u, a / u, u);
    }
  }

  lemma RoundedIsScaled(a: nat)
    ensures IsDouble(NearestMultiple(a, Spacing(a)))
  {
    var k := SpacingIsPower(a);
    var u := Double2(k);
    hide Spacing, Double2;
    QuotientBelow(a, u, MANTISSA);
    var d := NearestMultiple(a, u);
    var q := if 2 * (a % u) < u || (2 * (a % u) == u && a / u % 2 == 0) then a / u else a / u + 1;
    assert d == q * u;
    assert IsScaled(Magnitude(d), q, k);
  }

  /** Conversion to a double goes to the nearest one. */
  lemma AsDoubleIsNearest(n: int)
    ensures Nearest(n, AsDouble(n))
  {
    var a := Magnitude(n);
    RoundedIsScaled(a);
    hide Spacing, NearestMultiple, IsScaled;
    var d := NearestMultiple(a, Spacing(a));
    assert Magnitude(AsDouble(n)) == d == Magnitude(d);
    var q0, k0 :| IsScaled(Magnitude(d), q0, k0);
    assert IsScaled(Magnitude(AsDouble(n)), q0, k0);
    forall x | IsDouble(x) ensures Magnitude(AsDouble(n) - n) <= Magnitude(x - n) {
      var q, k :| IsScaled(Magnitude(x), q, k);
      ScaledIs(Magnitude(x), q, k);
      NearestOfScaled(a, q, k);
      NearestOfScaled(a, 0, 0);
    }
  }

  lemma ScaledIs(a: nat, q: nat, k: nat)
    requires IsScaled(a, q, k)
    ensures q <= MANTISSA && a == q * Double2(k)
  {
  }
}
