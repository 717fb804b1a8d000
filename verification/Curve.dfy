/**
 * Turning an Ed25519 key pair into an X25519 key pair: the little-endian
 * codecs, the extended Euclid loop, the birational map of section 4.1 of
 * RFC 7748 and the clamping of its section 5.
 */
module Curve {
  import opened Modular
  import Primality
  import PrimeTower

  type Byte = b: int | 0 <= b < 256

  datatype Inverse = Inverse(value: int) | NotInvertible

  datatype Converted = Converted(bytes: seq<Byte>) | WrongLength | PointAtInfinity

  const TWO_255: int := 0x8000000000000000_0000000000000000_0000000000000000_0000000000000000
  const TWO_254: int := 0x4000000000000000_0000000000000000_0000000000000000_0000000000000000
  const TWO_248: int := 0x0100000000000000_0000000000000000_0000000000000000_0000000000000000
  const P25519: int := TWO_255 - 19

  // ---------------------------------------------------------- byte codecs

  function Power256(n: nat): (r: nat)
    ensures r >= 1
  {
    if n == 0 then 1 else 256 * Power256(n - 1)
  }

  function LittleEndian(bytes: seq<Byte>): nat {
    if bytes == [] then 0 else bytes[0] + 256 * LittleEndian(bytes[1..])
  }

  function Bytes(value: nat, n: nat): (bytes: seq<Byte>)
    ensures |bytes| == n
  {
    if n == 0 then [] else [value % 256] + Bytes(value / 256, n - 1)
  }

  lemma {:induction false} LittleEndianBound(bytes: seq<Byte>)
    ensures LittleEndian(bytes) < Power256(|bytes|)
  {
    if bytes != [] {
      LittleEndianBound(bytes[1..]);
    }
  }

  lemma {:induction false} DecodeEncode(value: nat, n: nat)
    requires value < Power256(n)
    ensures LittleEndian(Bytes(value, n)) == value
  {
    if n > 0 {
      DecodeEncode(value / 256, n - 1);
      assert Bytes(value, n)[1..] == Bytes(value / 256, n - 1);
    }
  }

  lemma {:induction false} EncodeDecode(bytes: seq<Byte>)
    ensures Bytes(LittleEndian(bytes), |bytes|) == bytes
  {
    if bytes != [] {
      EncodeDecode(bytes[1..]);
      var rest := LittleEndian(bytes[1..]);
      QuotientIs(bytes[0] + 256 * rest, 256, rest, bytes[0]);
    }
  }

  // The last byte is the most significant one.
  lemma {:induction false} LittleEndianLast(bytes: seq<Byte>, last: Byte)
    ensures LittleEndian(bytes + [last]) == LittleEndian(bytes) + last * Power256(|bytes|)
  {
    if bytes == [] {
      assert bytes + [last] == [last];
    } else {
      assert (bytes + [last])[1..] == bytes[1..] + [last];
      LittleEndianLast(bytes[1..], last);
      assert 256 * (last * Power256(|bytes| - 1)) == last * Power256(|bytes|);
    }
  }

  lemma {:induction false} BytesSnoc(value: nat, n: nat)
    ensures Bytes(value, n + 1) == Bytes(value, n) + [(value / Power256(n)) % 256]
  {
    if n == 0 {
      assert Bytes(value, 1) == [value % 256] + Bytes(value / 256, 0);
    } else {
      BytesSnoc(value / 256, n - 1);
      DivideTwice(value, Power256(n - 1));
      var last := (value / Power256(n)) % 256;
      assert Bytes(value, n + 1) == [value % 256] + Bytes(value / 256, n);
      assert Bytes(value / 256, n) == Bytes(value / 256, n - 1) + [last];
      assert [value % 256] + (Bytes(value / 256, n - 1) + [last]) == ([value % 256] + Bytes(value / 256, n - 1)) + [last];
    }
  }

  lemma DivideTwice(value: nat, q: nat)
    requires q >= 1
    ensures (value / 256) / q == value / (256 * q) == (value / q) / 256
  {
    QuotientOfQuotient(value, 256, q);
    QuotientOfQuotient(value, q, 256);
  }

  lemma QuotientOfQuotient(n: nat, a: nat, b: nat)
    requires a >= 1 && b >= 1 && a * b >= 1
    ensures (n / a) / b == n / (a * b)
  {
    var q, r := n / a, n % a;
    var k, s := q / b, q % b;
    assert n == a * q + r && q == b * k + s;
    TwoDigits(a, b, k, s, r);
    QuotientIs(n, a * b, k, a * s + r);
  }

  lemma TwoDigits(a: int, b: int, k: int, s: int, r: int)
    requires 0 <= s < b && 0 <= r < a
    ensures a * (b * k + s) + r == (a * b) * k + (a * s + r) && 0 <= a * s + r < a * b
  {
    Associate(a, b, k);
    assert a * (b * k + s) == a * (b * k) + a * s;
    ScaledBound(a, s, b);
  }

  lemma ScaledBound(a: int, s: int, b: int)
    requires a > 0 && 0 <= s < b
    ensures 0 <= a * s && a * s + a <= a * b
  {
    var d := b - 1 - s;
    NonNegative(a, s);
    NonNegative(a, d);
    assert a * b == a * (s + 1 + d) == a * s + a + a * d;
  }

  lemma NonNegative(a: int, b: int)
    requires a >= 0 && b >= 0
    ensures a * b >= 0
  {
  }

  lemma QuotientIs(n: int, d: int, k: int, r: int)
    requires d > 0 && 0 <= r < d && n == d * k + r
    ensures n / d == k && n % d == r
  {
    var k', r' := n / d, n % d;
    assert d * (k - k') == r' - r;
    MultipleBounds(d, k - k');
  }

  lemma PowersOf256()
    ensures Power256(31) == TWO_255 / 128 && Power256(32) == 2 * TWO_255
  {
    SmallPowers();
    Times(16, 12, 0x1_0000_0000_0000_0000_0000_0000_0000_0000, 0x1_0000_0000_0000_0000_0000_0000);
    Times(28, 3, 0x1_0000_0000_0000_0000_0000_0000_0000_0000_0000_0000_0000_0000_0000_0000, 0x100_0000);
    Times(28, 4, 0x1_0000_0000_0000_0000_0000_0000_0000_0000_0000_0000_0000_0000_0000_0000, 0x1_0000_0000);
  }

  lemma SmallPowers()
    ensures Power256(3) == 0x100_0000 && Power256(4) == 0x1_0000_0000
    ensures Power256(12) == 0x1_0000_0000_0000_0000_0000_0000 && Power256(16) == 0x1_0000_0000_0000_0000_0000_0000_0000_0000
  {
    assert Power256(1) == 256 * Power256(0);
    Times(1, 1, 256, 256);
    Times(2, 1, 0x1_0000, 256);
    Times(2, 2, 0x1_0000, 0x1_0000);
    Times(4, 4, 0x1_0000_0000, 0x1_0000_0000);
    Times(8, 4, 0x1_0000_0000_0000_0000, 0x1_0000_0000);
    Times(8, 8, 0x1_0000_0000_0000_0000, 0x1_0000_0000_0000_0000);
  }

  lemma Times(a: nat, b: nat, x: int, y: int)
    requires Power256(a) == x && Power256(b) == y
    ensures Power256(a + b) == x * y
  {
    PowerSum(a, b);
  }

  lemma {:induction false} PowerSum(a: nat, b: nat)
    ensures Power256(a + b) == Power256(a) * Power256(b)
  {
    if a > 0 {
      PowerSum(a - 1, b);
      assert 256 * (Power256(a - 1) * Power256(b)) == (256 * Power256(a - 1)) * Power256(b);
    }
  }

  // The 32 bytes with the sign bit of the Edwards point cleared.
  function ClearTop(raw: seq<Byte>): seq<Byte>
    requires |raw| == 32
  {
    raw[..31] + [raw[31] % 128]
  }

  method DecodeEdwardsY(raw: seq<Byte>) returns (y: int)
    requires |raw| == 32
    ensures y == LittleEndian(ClearTop(raw)) && 0 <= y < TWO_255
  {
    y := 0;
    ghost var cleared := ClearTop(raw);
    for i := 0 to 32
      invariant y == LittleEndian(cleared[..i])
    {
      var byte: Byte := raw[i];
      if i == 31 {
        byte := byte % 128;
      }
      assert cleared[..i + 1] == cleared[..i] + [byte];
      LittleEndianLast(cleared[..i], byte);
      // The bits below 8i are the only ones set so far, so the bitwise or is a sum.
      assert y < Power256(i) by { LittleEndianBound(cleared[..i]); }
      y := y + byte * Power256(i);
    }
    assert cleared[..32] == cleared;
    ClearedBound(raw);
  }

  lemma ClearedBound(raw: seq<Byte>)
    requires |raw| == 32
    ensures LittleEndian(ClearTop(raw)) < TWO_255
  {
    LittleEndianLast(raw[..31], raw[31] % 128);
    LittleEndianBound(raw[..31]);
    PowersOf256();
    var w, top := Power256(31), raw[31] % 128;
    assert top * w <= 127 * w;
  }

  method ToLittleEndian(value: nat) returns (bytes: array<Byte>)
    ensures fresh(bytes) && bytes[..] == Bytes(value, 32)
  {
    var remaining := value;
    bytes := new Byte[32](_ => 0);
    for i := 0 to 32
      invariant bytes[..i] == Bytes(value, i) && remaining == value / Power256(i)
    {
      bytes[i] := remaining % 256;
      BytesSnoc(value, i);
      DivideTwice(value, Power256(i));
      assert bytes[..i + 1] == bytes[..i] + [bytes[i]];
      remaining := remaining / 256;
    }
    assert bytes[..] == bytes[..32];
  }

  // ------------------------------------------------------- extended Euclid

  // The remainder as BigInt computes it: truncated, with the sign of the dividend.
  function Rem(a: int, m: int): int
    requires m > 0
  {
    if a >= 0 then a % m else -((-a) % m)
  }

  lemma RemCongruent(a: int, m: int)
    requires m > 0
    ensures Congruent(Rem(a, m), a, m) && -m < Rem(a, m) < m
  {
    if a >= 0 {
      ModCongruent(a, m);
    } else {
      ModCongruent(-a, m);
      SameDifference((-a) % m, -a, Rem(a, m), a, m);
    }
  }

  function Normalize(a: int, m: int): int
    requires m > 0
  {
    Rem(Rem(a, m) + m, m)
  }

  lemma NormalizeIsMod(a: int, m: int)
    requires m > 0
    ensures Normalize(a, m) == a % m
  {
    hide Congruent;
    var r := Rem(a, m) + m;
    RemCongruent(a, m);
    RemCongruent(r, m);
    CongruentIf(r, Rem(a, m), m, 1);
    CongruentTrans(Normalize(a, m), r, Rem(a, m), m);
    CongruentTrans(Normalize(a, m), Rem(a, m), a, m);
    ModCongruent(a, m);
    CongruentTrans(Normalize(a, m), a, a % m, m);
    ResidueUnique(Normalize(a, m), a % m, m);
  }

  ghost predicate IsInverse(r: int, value: int, modulus: int) {
    Congruent(value * r, 1, modulus)
  }

  ghost predicate Coprime(a: int, b: int) {
    forall d :: d > 0 && Divides(d, a) && Divides(d, b) ==> d == 1
  }

  // One division step keeps both the combinations of the start values that make
  // up a and b, and the combinations of a and b that make up the start values.
  lemma EuclidStep(a: int, b: int, q: int, v: int, m: int,
                   x: int, y: int, lastX: int, lastY: int, p: int, r: int, s: int, t: int)
    requires a == lastX * v + lastY * m && b == x * v + y * m
    requires v == p * a + r * b && m == s * a + t * b
    ensures a - q * b == (lastX - q * x) * v + (lastY - q * y) * m
    ensures v == (p * q + r) * b + p * (a - q * b)
    ensures m == (s * q + t) * b + s * (a - q * b)
  {
    StepCombines(lastX, x, lastY, y, q, v, m);
    StepRestores(p, q, r, a, b);
    StepRestores(s, q, t, a, b);
  }

  lemma StepCombines(lastX: int, x: int, lastY: int, y: int, q: int, v: int, m: int)
    ensures (lastX * v + lastY * m) - q * (x * v + y * m) == (lastX - q * x) * v + (lastY - q * y) * m
  {
    MulDifference(lastX, q * x, v);
    MulDifference(lastY, q * y, m);
    Associate(q, x, v);
    Associate(q, y, m);
  }

  lemma StepRestores(p: int, q: int, r: int, a: int, b: int)
    ensures (p * q + r) * b + p * (a - q * b) == p * a + r * b
  {
    Associate(p, q, b);
    MulDifference(a, q * b, p);
    assert (p * q + r) * b == (p * q) * b + r * b;
  }

  // Returns the one inverse in [0, modulus) when there is one, and fails exactly
  // when the value has a common factor with the modulus.
  method ModInverse(value: int, modulus: int) returns (r: Inverse)
    requires modulus > 0
    ensures r.Inverse? <==> Coprime(value, modulus)
    ensures r.Inverse? ==> 0 <= r.value < modulus && IsInverse(r.value, value, modulus)
    ensures r.Inverse? ==>
      forall other :: 0 <= other < modulus && IsInverse(other, value, modulus) ==> other == r.value
  {
    var a := Normalize(value, modulus);
    NormalizeIsMod(value, modulus);
    var b := modulus;
    var x := 0;
    var lastX := 1;
    ghost var v := a;
    ghost var y, lastY := 1, 0;
    ghost var p, q, s, t := 1, 0, 0, 1;
    while b != 0
      invariant a >= 0 && b >= 0 && a + b > 0
      invariant a == lastX * v + lastY * modulus && b == x * v + y * modulus
      invariant v == p * a + q * b && modulus == s * a + t * b
      decreases b
    {
      var quotient := a / b;
      EuclidStep(a, b, quotient, v, modulus, x, y, lastX, lastY, p, q, s, t);
      p, q := p * quotient + q, p;
      s, t := s * quotient + t, s;
      y, lastY := lastY - quotient * y, y;
      DivisionShrinks(a, b);
      a, b := b, a - quotient * b;
      lastX, x := x, lastX - quotient * x;
    }
    assert v == a * p && modulus == a * s;
    assert Divides(a, v) && Divides(a, modulus);
    ModCongruent(value, modulus);
    if a != 1 {
      DividesCongruent(a, v, value, modulus);
      return NotInvertible;
    }
    var result := Normalize(lastX, modulus);
    NormalizeIsMod(lastX, modulus);
    BezoutInverts(lastX, lastY, v, value, modulus);
    forall other | 0 <= other < modulus && IsInverse(other, value, modulus) ensures other == result {
      InverseUnique(result, other, value, modulus);
    }
    InvertibleCoprime(result, value, modulus);
    return Inverse(result);
  }

  lemma DivisionShrinks(a: int, b: int)
    requires b > 0
    ensures 0 <= a - (a / b) * b < b
  {
    assert a == b * (a / b) + a % b;
  }

  lemma BezoutInverts(x: int, y: int, v: int, value: int, m: int)
    requires m > 0 && 1 == x * v + y * m && v == value % m
    ensures IsInverse(x % m, value, m)
  {
    assert v * x - 1 == m * (-y);
    CongruentIf(v * x, 1, m, -y);
    hide Congruent;
    ModCongruent(value, m);
    ModCongruent(x, m);
    CongruentTimes(value, v, x % m, m);
    CongruentTimes(x % m, x, v, m);
    Commute(v, x % m);
    Commute(v, x);
    CongruentTrans(value * (x % m), v * (x % m), v * x, m);
    CongruentTrans(value * (x % m), v * x, 1, m);
  }

  lemma Commute(a: int, b: int)
    ensures a * b == b * a
  {
  }

  lemma Associate(a: int, b: int, c: int)
    ensures (a * b) * c == a * (b * c) == (a * c) * b
  {
  }

  lemma InverseUnique(r: int, other: int, value: int, m: int)
    requires 0 <= r < m && 0 <= other < m && IsInverse(r, value, m) && IsInverse(other, value, m)
    ensures r == other
  {
    // r is (value * other) * r, which is (value * r) * other, which is other
    hide Congruent;
    CongruentTimes(value * other, 1, r, m);
    CongruentTimes(value * r, 1, other, m);
    Associate(value, other, r);
    CongruentSym((value * other) * r, r, m);
    CongruentTrans(r, (value * r) * other, other, m);
    ResidueUnique(r, other, m);
  }

  lemma InvertibleCoprime(r: int, value: int, m: int)
    requires IsInverse(r, value, m)
    ensures Coprime(value, m)
  {
    forall d | d > 0 && Divides(d, value) && Divides(d, m) ensures d == 1 {
      DividesTimes(d, value, r);
      DividesCongruent(d, value * r, 1, m);
      DividesOne(d);
    }
  }

  // ------------------------------------------------------- public keys

  // The point of the key: its y coordinate, with the sign bit left out.
  function YOf(raw: seq<Byte>): nat
    requires |raw| == 32
  {
    LittleEndian(ClearTop(raw))
  }

  // The defining equation of the map, modulo m: u (1 - y) is 1 + y.
  ghost predicate Birational(u: int, y: int, m: int) {
    Congruent(u * (1 - y), 1 + y, m)
  }

  method ConvertPublic(raw: seq<Byte>) returns (r: Converted)
    ensures |raw| != 32 <==> r.WrongLength?
    ensures |raw| == 32 ==> (r.PointAtInfinity? <==> Congruent(YOf(raw), 1, P25519))
    ensures r.Converted? ==>
      |r.bytes| == 32 && LittleEndian(r.bytes) < P25519 && Birational(LittleEndian(r.bytes), YOf(raw), P25519)
  {
    if |raw| != 32 {
      return WrongLength;
    }
    var y := DecodeEdwardsY(raw);
    var numerator := Rem(1 + y, P25519);
    var denominator := Rem(1 - y + P25519, P25519);
    DenominatorOf(y);
    if denominator == 0 {
      return PointAtInfinity;
    }
    NonzeroIsCoprime(denominator);
    var inverse := ModInverse(denominator, P25519);
    var montgomery := (numerator * inverse.value) % P25519;
    MapHolds(y, numerator, denominator, inverse.value, P25519);
    var bytes := ToLittleEndian(montgomery);
    PowersOf256();
    DecodeEncode(montgomery, 32);
    return Converted(bytes[..]);
  }

  // For y >= p + 2 the denominator is negative; it is 0 exactly when y is 1 mod p.
  lemma DenominatorOf(y: nat)
    requires y < TWO_255
    ensures var d := Rem(1 - y + P25519, P25519);
            && Congruent(d, 1 - y, P25519) && -P25519 < d < P25519
            && (d == 0 <==> Congruent(y, 1, P25519))
            && (y >= P25519 + 2 ==> d < 0)
  {
    var m := P25519;
    var d := Rem(1 - y + m, m);
    hide Congruent;
    RemCongruent(1 - y + m, m);
    CongruentIf(1 - y + m, 1 - y, m, 1);
    CongruentTrans(d, 1 - y + m, 1 - y, m);
    if d == 0 {
      SameDifference(0, 1 - y, y, 1, m);
    }
    if Congruent(y, 1, m) {
      SameDifference(y, 1, 1 - y, 0, m);
      CongruentTrans(d, 1 - y, 0, m);
      if d >= 0 {
        ResidueUnique(d, 0, m);
      } else {
        CongruentIf(d + m, d, m, 1);
        CongruentTrans(d + m, d, 0, m);
        ResidueUnique(d + m, 0, m);
      }
    }
  }

  // A number in (-m, m) other than 0 that is not coprime to m shows a proper factor of m.
  lemma CommonFactor(value: int, m: int)
    requires -m < value < m && value != 0 && !Coprime(value, m)
    ensures exists d :: 1 < d < m && Divides(d, m)
  {
    var d :| d > 0 && Divides(d, value) && Divides(d, m) && d != 1;
    var k :| value == d * k;
    MultipleBounds(d, k);
  }

  // The modulus is prime, so that every other number has an inverse.
  lemma NonzeroIsCoprime(value: int)
    requires -P25519 < value < P25519 && value != 0
    ensures Coprime(value, P25519)
  {
    PrimeTower.PrimeP();
    if !Coprime(value, P25519) {
      CommonFactor(value, P25519);
    }
  }

  lemma MapHolds(y: int, numerator: int, denominator: int, inverse: int, m: int)
    requires m > 0 && numerator == Rem(1 + y, m) && Congruent(denominator, 1 - y, m)
    requires IsInverse(inverse, denominator, m)
    ensures Birational((numerator * inverse) % m, y, m)
  {
    hide Congruent;
    var n, d, i := numerator, denominator, inverse;
    var u := (n * i) % m;
    RemCongruent(1 + y, m);
    ModCongruent(n * i, m);
    // u (1 - y) is u d, which is (n i) d, which is (d i) n, which is n
    CongruentTimes(d, 1 - y, u, m);
    CongruentSym(d * u, (1 - y) * u, m);
    Commute(u, 1 - y);
    CongruentTimes(u, n * i, d, m);
    Commute(u, d);
    CongruentTrans(u * (1 - y), u * d, (n * i) * d, m);
    CongruentTimes(d * i, 1, n, m);
    Associate(n, i, d);
    Associate(d, i, n);
    Commute(n, d);
    Commute(n * i, d);
    CongruentTrans(u * (1 - y), (d * i) * n, n, m);
    CongruentTrans(u * (1 - y), n, 1 + y, m);
  }

  lemma Expand(u: int, y: int)
    ensures (1 + u) * (1 - y) - 2 == u * (1 - y) - (1 + y)
    ensures y * (u + 1) - (u - 1) == (1 + y) - u * (1 - y)
  {
  }

  // The form that needs no division: (1 + u)(1 - y) is 2.
  lemma MapAsProduct(u: int, y: int, m: int)
    ensures Birational(u, y, m) <==> Congruent((1 + u) * (1 - y), 2, m)
  {
    Expand(u, y);
  }

  // The inverse of section 4.1 of RFC 7748: y (u + 1) is u - 1.
  lemma MapInverse(u: int, y: int, m: int)
    ensures Birational(u, y, m) <==> Congruent(y * (u + 1), u - 1, m)
  {
    hide Congruent;
    Expand(u, y);
    if Birational(u, y, m) {
      SameDifference(u * (1 - y), 1 + y, y * (u + 1), u - 1, m);
    }
    if Congruent(y * (u + 1), u - 1, m) {
      SameDifference(y * (u + 1), u - 1, u * (1 - y), 1 + y, m);
    }
  }

  // If w a and w b are both 2 modulo an odd number then a and b are congruent.
  lemma CancelTwo(w: int, a: int, b: int, m: int)
    requires m % 2 == 1 && Congruent(w * a, 2, m) && Congruent(w * b, 2, m)
    ensures Congruent(a, b, m)
  {
    hide Congruent;
    CongruentTimes(w * a, 2, b, m);
    CongruentTimes(w * b, 2, a, m);
    Associate(w, a, b);
    CongruentSym((w * a) * b, 2 * b, m);
    CongruentTrans(2 * b, (w * b) * a, 2 * a, m);
    CancelDouble(b, a, m);
    CongruentSym(b, a, m);
  }

  lemma CancelDouble(a: int, b: int, m: int)
    requires m % 2 == 1 && Congruent(2 * a, 2 * b, m)
    ensures Congruent(a, b, m)
  {
    assert 2 * a - 2 * b == 2 * (a - b);
    HalveOdd(a - b, m);
  }

  // Modulo an odd number, points with different y have different u.
  lemma MapInjective(u: int, y1: int, y2: int, m: int)
    requires m % 2 == 1 && Birational(u, y1, m) && Birational(u, y2, m)
    ensures Congruent(y1, y2, m)
  {
    hide Congruent;
    MapAsProduct(u, y1, m);
    MapAsProduct(u, y2, m);
    CancelTwo(1 + u, 1 - y1, 1 - y2, m);
    SameDifference(1 - y1, 1 - y2, y1, y2, m);
  }

  // Two keys that convert to the same bytes have the same point, whatever the
  // odd modulus.
  lemma ConversionInjective(raw1: seq<Byte>, raw2: seq<Byte>, bytes: seq<Byte>, m: nat)
    requires |raw1| == |raw2| == 32 && m % 2 == 1
    requires Birational(LittleEndian(bytes), YOf(raw1), m) && Birational(LittleEndian(bytes), YOf(raw2), m)
    ensures Congruent(YOf(raw1), YOf(raw2), m)
    ensures YOf(raw1) < m && YOf(raw2) < m ==> ClearTop(raw1) == ClearTop(raw2)
  {
    MapInjective(LittleEndian(bytes), YOf(raw1), YOf(raw2), m);
    if YOf(raw1) < m && YOf(raw2) < m {
      ResidueUnique(YOf(raw1), YOf(raw2), m);
      EncodeDecode(ClearTop(raw1));
      EncodeDecode(ClearTop(raw2));
    }
  }

  // A point has one converted key only.
  lemma ConversionUnique(u1: int, u2: int, y: int, m: int)
    requires 0 <= u1 < m && 0 <= u2 < m && m % 2 == 1
    requires Birational(u1, y, m) && Birational(u2, y, m)
    ensures u1 == u2
  {
    hide Congruent;
    MapAsProduct(u1, y, m);
    MapAsProduct(u2, y, m);
    Commute(1 + u1, 1 - y);
    Commute(1 + u2, 1 - y);
    CancelTwo(1 - y, 1 + u1, 1 + u2, m);
    SameDifference(1 + u1, 1 + u2, u1, u2, m);
    ResidueUnique(u1, u2, m);
  }

  // Euclid's combination of two numbers.
  lemma {:induction false} Combination(a: nat, b: nat) returns (g: nat, x: int, y: int)
    requires a > 0
    ensures g > 0 && Divides(g, a) && Divides(g, b) && g == a * x + b * y
    decreases b
  {
    if b == 0 {
      g, x, y := a, 1, 0;
      DividesIf(a, a, 1);
      DividesIf(a, 0, 0);
    } else {
      var q, r := a / b, a % b;
      var u, v;
      g, u, v := Combination(b, r);
      // g is b u + r v, and r is a - q b
      x, y := v, u - q * v;
      DividesTimes(g, b, q);
      DividesSum(g, b * q, r);
      Recombine(a, b, q, r, u, v);
    }
  }

  lemma Recombine(a: int, b: int, q: int, r: int, u: int, v: int)
    requires a == b * q + r
    ensures b * u + r * v == a * v + b * (u - q * v)
  {
    assert a * v == (b * q) * v + r * v;
    Associate(b, q, v);
    assert b * (u - q * v) == b * u - b * (q * v);
  }

  lemma InverseExists(value: int, m: int) returns (r: int)
    requires 0 < value < m && Coprime(value, m)
    ensures 0 <= r < m && IsInverse(r, value, m)
  {
    var g, x, y := Combination(value, m);
    assert g == 1;
    r := x % m;
    hide Coprime;
    CongruentIf(value * x, 1, m, -y);
    ModCongruent(x, m);
    CongruentTimes(r, x, value, m);
    Commute(r, value);
    Commute(x, value);
    CongruentTrans(value * r, value * x, 1, m);
  }

  // What a converted key can be: every u in [0, p) but p - 1.
  lemma ImageIs(u: int)
    requires 0 <= u < P25519
    ensures (exists raw: seq<Byte> :: |raw| == 32 && Birational(u, YOf(raw), P25519)) <==> u != P25519 - 1
  {
    if u == P25519 - 1 {
      forall raw: seq<Byte> | |raw| == 32 ensures !Birational(u, YOf(raw), P25519) {
        NeverMinusOne(YOf(raw), P25519);
      }
    } else {
      var y := Preimage(u);
      var raw := RawOf(y);
      assert Birational(u, YOf(raw), P25519);
    }
  }

  // Modulo an odd number above 1, -1 is no image: (1 + u)(1 - y) would be 0.
  lemma NeverMinusOne(y: int, m: int)
    requires m > 2 && m % 2 == 1
    ensures !Birational(m - 1, y, m)
  {
    if Birational(m - 1, y, m) {
      MapAsProduct(m - 1, y, m);
      CongruentIf(m * (1 - y), 0, m, 1 - y);
      CongruentSym(m * (1 - y), 2, m);
      CongruentTrans(2, m * (1 - y), 0, m);
      ResidueUnique(2, 0, m);
    }
  }

  // y is (u - 1)/(u + 1).
  lemma Preimage(u: int) returns (y: int)
    requires 0 <= u < P25519 - 1
    ensures 0 <= y < P25519 && Birational(u, y, P25519)
  {
    NonzeroIsCoprime(u + 1);
    var i := InverseExists(u + 1, P25519);
    y := ((u - 1) * i) % P25519;
    Solves(u, i, y, P25519);
  }

  lemma Solves(u: int, i: int, y: int, m: int)
    requires m > 0 && IsInverse(i, u + 1, m) && y == ((u - 1) * i) % m
    ensures Birational(u, y, m)
  {
    hide Congruent;
    ModCongruent((u - 1) * i, m);
    // y (u + 1) is (u - 1) i (u + 1), which is u - 1
    CongruentTimes(y, (u - 1) * i, u + 1, m);
    CongruentTimes((u + 1) * i, 1, u - 1, m);
    Associate(u - 1, i, u + 1);
    Associate(u + 1, i, u - 1);
    Commute((u - 1) * i, u + 1);
    Commute(i, u + 1);
    Rearrange(u - 1, i, u + 1);
    CongruentTrans(y * (u + 1), ((u + 1) * i) * (u - 1), u - 1, m);
    MapInverse(u, y, m);
  }

  lemma Rearrange(a: int, b: int, c: int)
    ensures (a * b) * c == (c * b) * a
  {
    Associate(a, b, c);
    Commute(b, c);
    Commute(a, c * b);
  }

  lemma RawOf(y: nat) returns (raw: seq<Byte>)
    requires y < TWO_255
    ensures |raw| == 32 && YOf(raw) == y
  {
    raw := Bytes(y, 32);
    PowersOf256();
    DecodeEncode(y, 32);
    TopIsClear(raw);
  }

  // Below 2^255 the top bit is clear already.
  lemma TopIsClear(raw: seq<Byte>)
    requires |raw| == 32 && LittleEndian(raw) < TWO_255
    ensures ClearTop(raw) == raw
  {
    assert raw == raw[..31] + [raw[31]];
    LittleEndianLast(raw[..31], raw[31]);
    LittleEndianBound(raw[..31]);
    PowersOf256();
    assert raw[31] < 128;
  }

  // ------------------------------------------------------- private keys

  // Clears the low three bits and the top bit and sets the one below it.
  method Clamp(hash: seq<Byte>) returns (scalar: array<Byte>)
    requires |hash| == 64
    ensures fresh(scalar) && scalar.Length == 32
    ensures var h := LittleEndian(hash[..32]);
            LittleEndian(scalar[..]) == TWO_254 + h % TWO_254 - h % 8
  {
    hide LittleEndian;
    scalar := new Byte[32](i requires 0 <= i < 32 => hash[i]);
    scalar[0] := scalar[0] - scalar[0] % 8;    // &= 248
    scalar[31] := scalar[31] % 128;            // &= 127
    scalar[31] := scalar[31] % 64 + 64;        // |= 64, the bit above being clear
    assert (hash[31] % 128) % 64 == hash[31] % 64;
    ClampValue(hash[..32], scalar[..]);
  }

  // The value of 32 bytes, from its first byte, its last byte and those between.
  lemma Parts(bytes: seq<Byte>)
    requires |bytes| == 32
    ensures var low := bytes[0] + 256 * LittleEndian(bytes[1..31]);
            LittleEndian(bytes) == low + bytes[31] * TWO_248 && low < TWO_248
  {
    assert bytes == bytes[..31] + [bytes[31]];
    assert bytes[..31][1..] == bytes[1..31];
    LittleEndianLast(bytes[..31], bytes[31]);
    LittleEndianBound(bytes[..31]);
    PowersOf256();
  }

  lemma ClampValue(h: seq<Byte>, s: seq<Byte>)
    requires |h| == |s| == 32 && s[1..31] == h[1..31]
    requires s[0] == h[0] - h[0] % 8 && s[31] == h[31] % 64 + 64
    ensures LittleEndian(s) == TWO_254 + LittleEndian(h) % TWO_254 - LittleEndian(h) % 8
  {
    Parts(h);
    Parts(s);
    hide LittleEndian;
    ClampArithmetic(h[0], LittleEndian(h[1..31]), h[31], TWO_248, TWO_254, LittleEndian(h), LittleEndian(s));
  }

  lemma ClampArithmetic(first: nat, mid: nat, top: nat, w: nat, full: nat, h: nat, s: nat)
    requires w > 0 && w % 8 == 0 && full == 64 * w && first + 256 * mid < w
    requires h == first + 256 * mid + top * w
    requires s == (first - first % 8) + 256 * mid + (top % 64 + 64) * w
    ensures s == full + h % full - h % 8
  {
    HighPart(first + 256 * mid, top, w);
    LowPart(first, mid, top, w / 8);
    assert top * w == 8 * (top * (w / 8)) by { assert w == 8 * (w / 8); }
    assert (top % 64 + 64) * w == (top % 64) * w + 64 * w;
  }

  lemma HighPart(low: nat, top: nat, w: nat)
    requires low < w
    ensures (low + top * w) % (64 * w) == low + (top % 64) * w
  {
    var q, r, big := top / 64, top % 64, 64 * w;
    SplitTop(top, q, r, w);
    QuotientIs(low + top * w, big, q, low + r * w);
  }

  lemma SplitTop(top: int, q: int, r: int, w: int)
    requires top == 64 * q + r && 0 <= r < 64 && w > 0
    ensures top * w == (64 * w) * q + r * w && 0 <= r * w <= 63 * w
  {
    assert (64 * q + r) * w == (64 * q) * w + r * w;
    Associate(64, q, w);
    Commute(r, w);
    ScaledBound(w, r, 64);
  }

  lemma LowPart(first: nat, mid: nat, top: nat, e: nat)
    ensures (first + 256 * mid + 8 * (top * e)) % 8 == first % 8
  {
    QuotientIs(first + 256 * mid + 8 * (top * e), 8, first / 8 + 32 * mid + top * e, first % 8);
  }

  // A clamped scalar is a multiple of 8 in [2^254, 2^255), and clamping again changes nothing.
  lemma ClampedRange(h: nat)
    ensures var s := TWO_254 + h % TWO_254 - h % 8;
            && s % 8 == 0 && TWO_254 <= s < TWO_255
            && TWO_254 + s % TWO_254 - s % 8 == s
  {
    var r := h % TWO_254;
    assert r % 8 == h % 8 by {
      assert h == 8 * ((TWO_254 / 8) * (h / TWO_254)) + r;
      QuotientIs(h, 8, (TWO_254 / 8) * (h / TWO_254) + r / 8, r % 8);
    }
    var s := TWO_254 + r - h % 8;
    assert r - h % 8 == 8 * (r / 8);
    QuotientIs(s, 8, TWO_254 / 8 + r / 8, 0);
    QuotientIs(s, TWO_254, 1, r - h % 8);
  }
}
