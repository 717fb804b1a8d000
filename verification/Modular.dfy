/** Congruence and divisibility of integers, for any modulus. */
module Modular {

  function Power2(n: nat): (p: nat)
    ensures p >= 1
  {
    if n == 0 then 1 else 2 * Power2(n - 1)
  }

  ghost predicate Divides(d: int, n: int) {
    exists k :: n == d * k
  }

  ghost predicate Congruent(a: int, b: int, m: int) {
    Divides(m, a - b)
  }

  lemma DividesIf(d: int, n: int, k: int)
    requires n == d * k
    ensures Divides(d, n)
  {
  }

  lemma DividesSum(d: int, x: int, y: int)
    requires Divides(d, x) && Divides(d, y)
    ensures Divides(d, x + y) && Divides(d, x - y)
  {
    var i :| x == d * i;
    var j :| y == d * j;
    assert x + y == d * (i + j) && x - y == d * (i - j);
  }

  lemma DividesTimes(d: int, x: int, y: int)
    requires Divides(d, x)
    ensures Divides(d, x * y)
  {
    var i :| x == d * i;
    assert x * y == (d * i) * y == d * (i * y);
  }

  lemma CongruentIf(a: int, b: int, m: int, k: int)
    requires a - b == m * k
    ensures Congruent(a, b, m) && Congruent(b, a, m)
  {
    assert b - a == m * (-k);
  }

  // Congruence only depends on the difference.
  lemma SameDifference(a: int, b: int, c: int, d: int, m: int)
    requires Congruent(a, b, m) && (a - b == c - d || a - b == d - c)
    ensures Congruent(c, d, m)
  {
    var k :| a - b == m * k;
    if a - b == c - d {
      CongruentIf(c, d, m, k);
    } else {
      CongruentIf(d, c, m, k);
    }
  }

  lemma CongruentSym(a: int, b: int, m: int)
    requires Congruent(a, b, m)
    ensures Congruent(b, a, m)
  {
    SameDifference(a, b, b, a, m);
  }

  lemma CongruentTrans(a: int, b: int, c: int, m: int)
    requires Congruent(a, b, m) && Congruent(b, c, m)
    ensures Congruent(a, c, m)
  {
    DividesSum(m, a - b, b - c);
    assert (a - b) + (b - c) == a - c;
  }

  lemma MulDifference(a: int, b: int, c: int)
    ensures (a - b) * c == a * c - b * c
  {
  }

  lemma CongruentTimes(a: int, b: int, c: int, m: int)
    requires Congruent(a, b, m)
    ensures Congruent(a * c, b * c, m)
  {
    DividesTimes(m, a - b, c);
    MulDifference(a, b, c);
  }

  lemma ModCongruent(a: int, m: int)
    requires m > 0
    ensures Congruent(a % m, a, m) && Congruent(a, a % m, m)
  {
    assert a - a % m == m * (a / m);
    CongruentIf(a, a % m, m, a / m);
  }

  lemma MultipleBounds(m: int, k: int)
    requires m > 0
    ensures k >= 1 ==> m * k >= m
    ensures k <= -1 ==> m * k <= -m
  {
    assert m * k == m + m * (k - 1);
    assert m * k == -m + m * (k + 1);
  }

  // Congruent residues are equal.
  lemma ResidueUnique(a: int, b: int, m: int)
    requires 0 <= a < m && 0 <= b < m && Congruent(a, b, m)
    ensures a == b
  {
    var k :| a - b == m * k;
    MultipleBounds(m, k);
  }

  // A divisor of both a number and the modulus divides everything congruent to it.
  lemma DividesCongruent(d: int, a: int, b: int, m: int)
    requires Divides(d, m) && Divides(d, a) && Congruent(a, b, m)
    ensures Divides(d, b)
  {
    var k :| a - b == m * k;
    DividesTimes(d, m, k);
    DividesSum(d, a, a - b);
  }

  lemma DividesOne(d: int)
    requires Divides(d, 1) && d > 0
    ensures d == 1
  {
    var k :| 1 == d * k;
    MultipleBounds(d, k);
  }

  // An odd modulus that divides 2n divides n.
  lemma HalveOdd(n: int, m: int)
    requires m % 2 == 1 && Divides(m, 2 * n)
    ensures Divides(m, n)
  {
    var k :| 2 * n == m * k;
    var h := m / 2;
    assert m * k == 2 * (h * k) + k by {
      assert m == 2 * h + 1;
      assert (2 * h + 1) * k == 2 * (h * k) + k;
    }
    var j := n - h * k;
    assert k == 2 * j;
    assert m * k == 2 * (m * j);
    DividesIf(m, n, j);
  }
}
