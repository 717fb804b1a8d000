/**
 * Why 2^255 - 19 is prime: a criterion by an element of large order, applied to
 * a tower of primes.
 */
module Primality {
  import opened Modular

  ghost predicate Prime(n: int) {
    n > 1 && forall d :: 1 < d < n ==> !Divides(d, n)
  }

  function Pow(b: int, e: nat): int {
    if e == 0 then 1 else b * Pow(b, e - 1)
  }

  ghost predicate Unit(b: int, e: nat, m: int) {
    Congruent(Pow(b, e), 1, m)
  }

  // --------------------------------------------------------------- powers

  lemma {:induction false} PowSum(b: int, x: nat, y: nat)
    ensures Pow(b, x + y) == Pow(b, x) * Pow(b, y)
  {
    if x > 0 {
      PowSum(b, x - 1, y);
      Associates(b, Pow(b, x - 1), Pow(b, y));
    }
  }

  lemma Associates(a: int, b: int, c: int)
    ensures (a * b) * c == a * (b * c) && a * b == b * a
  {
  }

  lemma {:induction false} PowTimes(b: int, x: nat, y: nat)
    ensures x * y >= 0 && Pow(b, x * y) == Pow(Pow(b, x), y)
  {
    if y > 0 {
      PowTimes(b, x, y - 1);
      assert x * y == x + x * (y - 1);
      PowSum(b, x, x * (y - 1));
    }
  }

  lemma CongruentProduct(a: int, b: int, c: int, d: int, m: int)
    requires Congruent(a, b, m) && Congruent(c, d, m)
    ensures Congruent(a * c, b * d, m)
  {
    hide Congruent;
    CongruentTimes(a, b, c, m);
    CongruentTimes(c, d, b, m);
    Associates(b, c, 1);
    Associates(b, d, 1);
    CongruentTrans(a * c, b * c, b * d, m);
  }

  lemma {:induction false} UnitPower(x: int, e: nat, m: int)
    requires Congruent(x, 1, m)
    ensures Congruent(Pow(x, e), 1, m)
  {
    if e == 0 {
      CongruentIf(1, 1, m, 0);
    } else {
      UnitPower(x, e - 1, m);
      CongruentProduct(x, 1, Pow(x, e - 1), 1, m);
    }
  }

  lemma UnitMultiple(b: int, e: nat, k: nat, m: int)
    requires Unit(b, e, m)
    ensures e * k >= 0 && Unit(b, e * k, m)
  {
    PowTimes(b, e, k);
    UnitPower(Pow(b, e), k, m);
  }

  // Two exponents of 1 leave their remainder as another.
  lemma UnitRemainder(b: int, e: nat, k: nat, m: int)
    requires k > 0 && Unit(b, e, m) && Unit(b, k, m)
    ensures Unit(b, e % k, m)
  {
    hide Congruent;
    var q, s := e / k, e % k;
    UnitMultiple(b, k, q, m);
    assert e == k * q + s;
    PowSum(b, k * q, s);
    CongruentTimes(Pow(b, k * q), 1, Pow(b, s), m);
    CongruentSym(Pow(b, e), Pow(b, s), m);
    CongruentTrans(Pow(b, s), Pow(b, e), 1, m);
  }

  // Euclid's algorithm on the exponents.
  lemma {:induction false} CommonExponent(b: int, e: nat, k: nat, m: int) returns (g: nat)
    requires k > 0 && Unit(b, e, m) && Unit(b, k, m)
    ensures 0 < g <= k && Divides(g, e) && Divides(g, k) && Unit(b, g, m)
    decreases k
  {
    var s := e % k;
    if s == 0 {
      g := k;
      DividesIf(k, e, e / k);
      DividesIf(k, k, 1);
    } else {
      UnitRemainder(b, e, k, m);
      g := CommonExponent(b, k, s, m);
      DividesTimes(g, k, e / k);
      DividesSum(g, k * (e / k), s);
    }
  }

  // ------------------------------------------------------ large order

  // Every divisor of f but 1 is a multiple of l1 or of l2.
  ghost predicate Covered(f: int, l1: int, l2: int) {
    forall d :: d > 1 && Divides(d, f) ==> Divides(l1, d) || Divides(l2, d)
  }

  lemma CofactorIsUnit(b: int, g: nat, h: nat, l: nat, f: nat, cofactor: nat, m: int)
    requires Unit(b, g, m) && f == g * (l * h) && f == l * cofactor && l > 0
    ensures Unit(b, cofactor, m)
  {
    Associates(g, l, h);
    Associates(l, g, h);
    assert l * cofactor == l * (g * h);
    CancelFactor(l, cofactor, g * h);
    UnitMultiple(b, g, h, m);
  }

  lemma CancelFactor(l: int, x: int, y: int)
    requires l > 0 && l * x == l * y
    ensures x == y
  {
    if x < y {
      LessTimes(l, x, y);
    } else if y < x {
      LessTimes(l, y, x);
    }
  }

  lemma LessTimes(l: int, x: int, y: int)
    requires l > 0 && x < y
    ensures l * x < l * y
  {
  }

  lemma OrderIs(b: int, k: nat, f: nat, l1: nat, l2: nat, f1: nat, f2: nat, m: int)
    requires f == l1 * f1 && f == l2 * f2 && l1 > 0 && l2 > 0 && Covered(f, l1, l2)
    requires Unit(b, f, m) && !Unit(b, f1, m) && !Unit(b, f2, m)
    requires 0 < k < f
    ensures !Unit(b, k, m)
  {
    if Unit(b, k, m) {
      var g := CommonExponent(b, f, k, m);
      var d: int :| f == g * d;
      assert d > 1 by {
        if d <= 1 {
          SmallFactor(g, d);
        }
      }
      DividesIf(d, f, g);
      if Divides(l1, d) {
        var h: int :| d == l1 * h;
        Positive(l1, h);
        CofactorIsUnit(b, g, h, l1, f, f1, m);
      } else {
        var h: int :| d == l2 * h;
        Positive(l2, h);
        CofactorIsUnit(b, g, h, l2, f, f2, m);
      }
    }
  }

  lemma SmallFactor(g: int, d: int)
    requires g > 0 && d <= 1
    ensures g * d <= g
  {
  }

  lemma Positive(l: int, h: int)
    requires l > 0 && l * h > 0
    ensures h > 0
  {
  }

  // The first f powers have different remainders.
  lemma PowersDiffer(b: int, i: nat, j: nat, f: nat, m: int)
    requires i < j < f && Unit(b, f, m) && !Unit(b, j - i, m)
    ensures !Congruent(Pow(b, i), Pow(b, j), m)
  {
    hide Pow, Congruent;
    if Congruent(Pow(b, i), Pow(b, j), m) {
      Shift(b, i, j, f);
      ShiftedUnit(Pow(b, i), Pow(b, j), Pow(b, f - i), Pow(b, f), Pow(b, j - i), m);
    }
  }

  lemma Shift(b: int, i: nat, j: nat, f: nat)
    requires i < j < f
    ensures Pow(b, i) * Pow(b, f - i) == Pow(b, f)
    ensures Pow(b, j) * Pow(b, f - i) == Pow(b, f) * Pow(b, j - i)
  {
    hide Pow;
    PowSumIs(b, i, f - i, f);
    PowSumIs(b, j, f - i, f + j - i);
    PowSumIs(b, f, j - i, f + j - i);
  }

  lemma PowSumIs(b: int, x: nat, y: nat, z: nat)
    requires x + y == z
    ensures Pow(b, z) == Pow(b, x) * Pow(b, y)
  {
    PowSum(b, x, y);
  }

  lemma ShiftedUnit(x: int, y: int, c: int, full: int, rest: int, m: int)
    requires Congruent(x, y, m) && Congruent(full, 1, m)
    requires x * c == full && y * c == full * rest
    ensures Congruent(rest, 1, m)
  {
    hide Congruent;
    CongruentTimes(x, y, c, m);
    CongruentTimes(full, 1, rest, m);
    CongruentSym(full * rest, rest, m);
    CongruentSym(full, full * rest, m);
    CongruentTrans(rest, full * rest, full, m);
    CongruentTrans(rest, full, 1, m);
  }

  function Remainders(b: int, n: nat, m: int): set<int>
    requires m > 0
  {
    set i: nat | i < n :: Pow(b, i) % m
  }

  lemma {:induction false} RemaindersCount(b: int, n: nat, m: int)
    requires m > 0 && forall i: nat, j: nat :: i < j < n ==> !Congruent(Pow(b, i), Pow(b, j), m)
    ensures |Remainders(b, n, m)| == n
  {
    if n > 0 {
      RemaindersCount(b, n - 1, m);
      var last := Pow(b, n - 1) % m;
      assert Remainders(b, n, m) == Remainders(b, n - 1, m) + {last};
      forall i: nat | i < n - 1 ensures Pow(b, i) % m != last {
        if Pow(b, i) % m == last {
          ModCongruent(Pow(b, i), m);
          ModCongruent(Pow(b, n - 1), m);
          CongruentTrans(Pow(b, i), last, Pow(b, n - 1), m);
        }
      }
    }
  }

  lemma {:induction false} Below(s: set<int>, m: nat)
    requires forall x :: x in s ==> 0 <= x < m
    ensures |s| <= m
  {
    if m > 0 {
      Below(s - {m - 1}, m - 1);
    } else {
      assert (forall x :: x !in s) ==> s == {};
    }
  }

  // --------------------------------------------------------- the criterion

  ghost predicate Invertible(x: int, n: int) {
    exists u :: Congruent(x * u, 1, n)
  }

  lemma Weaken(r: int, n: int, x: int, y: int)
    requires Divides(r, n) && Congruent(x, y, n)
    ensures Congruent(x, y, r)
  {
    var k: int, j: int :| n == r * k && x - y == n * j;
    Associates(r, k, j);
    CongruentIf(x, y, r, k * j);
  }

  // No divisor but 1 sees a power as 1 when the power less 1 is invertible.
  lemma NotUnit(b: int, e: nat, n: int, r: int)
    requires r > 1 && Divides(r, n) && Invertible(Pow(b, e) - 1, n)
    ensures !Unit(b, e, r)
  {
    if Unit(b, e, r) {
      var x := Pow(b, e) - 1;
      var u :| Congruent(x * u, 1, n);
      Weaken(r, n, x * u, 1);
      DividesTimes(r, x, u);
      DividesDifference(r, x * u);
    }
  }

  lemma DividesDifference(r: int, y: int)
    requires r > 1 && Divides(r, y)
    ensures !Congruent(y, 1, r)
  {
    if Congruent(y, 1, r) {
      DividesTimes(r, y - 1, -1);
      DividesSum(r, y, (y - 1) * -1);
      DividesOne(r);
    }
  }

  // Every divisor but 1 is as large as the order of b.
  lemma LargeDivisors(b: int, f: nat, l1: nat, l2: nat, f1: nat, f2: nat, n: int, r: int)
    requires f == l1 * f1 && f == l2 * f2 && l1 > 0 && l2 > 0 && Covered(f, l1, l2)
    requires Unit(b, f, n) && Invertible(Pow(b, f1) - 1, n) && Invertible(Pow(b, f2) - 1, n)
    requires r > 1 && Divides(r, n)
    ensures f <= r
  {
    Weaken(r, n, Pow(b, f), 1);
    NotUnit(b, f1, n, r);
    NotUnit(b, f2, n, r);
    forall i: nat, j: nat | i < j < f ensures !Congruent(Pow(b, i), Pow(b, j), r) {
      OrderIs(b, j - i, f, l1, l2, f1, f2, r);
      PowersDiffer(b, i, j, f, r);
    }
    RemaindersCount(b, f, r);
    Below(Remainders(b, f, r), r);
  }

  lemma PrimeIf(n: int, b: int, f: nat, l1: nat, l2: nat, f1: nat, f2: nat)
    requires n > 1 && f * f > n
    requires f == l1 * f1 && f == l2 * f2 && l1 > 0 && l2 > 0 && Covered(f, l1, l2)
    requires Unit(b, f, n) && Invertible(Pow(b, f1) - 1, n) && Invertible(Pow(b, f2) - 1, n)
    ensures Prime(n)
  {
    forall d | 1 < d < n ensures !Divides(d, n) {
      if Divides(d, n) {
        var s: int :| n == d * s;
        Positive(d, s);
        assert s > 1 by {
          if s <= 1 {
            SmallFactor(d, s);
          }
        }
        Associates(d, s, 1);
        DividesIf(s, n, d);
        LargeDivisors(b, f, l1, l2, f1, f2, n, d);
        LargeDivisors(b, f, l1, l2, f1, f2, n, s);
        ProductGrows(f, d, f, s);
      }
    }
  }

  lemma ProductGrows(a: int, b: int, c: int, d: int)
    requires 0 <= a <= b && 0 <= c <= d
    ensures a * c <= b * d
  {
    assert a * c <= b * c && b * c <= b * d;
  }

  // ----------------------------------------------------- products of primes

  lemma {:induction false} PrimeDividesProduct(p: int, a: nat, b: int)
    requires Prime(p) && 0 < a < p && Divides(p, a * b)
    ensures Divides(p, b)
    decreases a
  {
    if a > 1 {
      var q, r := p / a, p % a;
      if r == 0 {
        DividesIf(a, p, q);
      }
      assert r > 0;
      RemainderTimes(p, a, b, q, r);
      DividesRemainder(p, a, b, q);
      PrimeDividesProduct(p, r, b);
    }
  }

  lemma RemainderTimes(p: int, a: int, b: int, q: int, r: int)
    requires p == a * q + r
    ensures p * b + (a * b) * -q == r * b
  {
    Spread(a, q, r, b);
  }

  lemma DividesRemainder(p: int, a: int, b: int, q: int)
    requires Divides(p, a * b)
    ensures Divides(p, p * b + (a * b) * -q)
  {
    DividesIf(p, p * b, b);
    DividesTimes(p, a * b, -q);
    DividesSum(p, p * b, (a * b) * -q);
  }

  lemma Spread(a: int, q: int, r: int, b: int)
    ensures (a * q + r) * b + (a * b) * -q == r * b
  {
    Associates(a, q, b);
    Associates(a, b, q);
    assert (a * q + r) * b == (a * q) * b + r * b;
    assert (a * b) * -q == -((a * b) * q);
    assert a * (q * b) == a * (b * q);
  }

  lemma PrimeDividesFactor(p: int, a: int, b: int)
    requires Prime(p) && Divides(p, a * b)
    ensures Divides(p, a) || Divides(p, b)
  {
    var q, r := a / p, a % p;
    if r == 0 {
      DividesIf(p, a, q);
    } else {
      DividesIf(p, p, 1);
      DividesTimes(p, p, -(q * b));
      DividesSum(p, a * b, p * -(q * b));
      assert a * b + p * -(q * b) == r * b by {
        assert a == p * q + r;
        Associates(p, q, b);
        assert (p * q + r) * b == (p * q) * b + r * b;
      }
      PrimeDividesProduct(p, r, b);
    }
  }

  lemma CoveredByPrime(p: nat)
    requires Prime(p)
    ensures Covered(p, p, p)
  {
    forall d | d > 1 && Divides(d, p) ensures Divides(p, d) {
      var k: int :| p == d * k;
      Positive(d, k);
      MultipleBounds(d, k);
      if d == p {
        DividesIf(p, d, 1);
      }
    }
  }

  lemma CoveredByTwo(p: nat, q: nat)
    requires Prime(p) && Prime(q)
    ensures Covered(p * q, p, q)
  {
    forall d | d > 1 && Divides(d, p * q) ensures Divides(p, d) || Divides(q, d) {
      var k: int :| p * q == d * k;
      DividesIf(p, d * k, q);
      PrimeDividesFactor(p, d, k);
      if !Divides(p, d) {
        var h: int :| k == p * h;
        Associates(d, p, h);
        Associates(p, d, h);
        assert p * q == p * (d * h);
        CancelFactor(p, q, d * h);
        DividesIf(d, q, h);
        CoveredByPrime(q);
      }
    }
  }
}
