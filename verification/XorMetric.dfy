/**
 * The XOR order on peer ids, as three parts of the program compute it: the
 * router byte by byte, the sync protocol as one big number, the routing table
 * on byte arrays of equal length.
 */
module XorMetric {

  type Id = seq<bv8>

  function Max(a: nat, b: nat): nat {
    if a >= b then a else b
  }

  // Missing bytes count as zero.
  function ByteAt(id: Id, i: nat): bv8 {
    if i < |id| then id[i] else 0
  }

  function XorByte(t: Id, a: Id, i: nat): (d: nat)
    ensures d < 256
  {
    (ByteAt(t, i) ^ ByteAt(a, i)) as nat
  }

  // The first n bytes of the padded XOR, read as a big-endian number.
  function XorNumber(t: Id, a: Id, n: nat): nat {
    if n == 0 then 0 else 256 * XorNumber(t, a, n - 1) + XorByte(t, a, n - 1)
  }

  function Width(t: Id, a: Id, b: Id): nat {
    Max(|t|, Max(|a|, |b|))
  }

  // The order itself: `a` is closer to `t` than `b`.
  predicate Closer(t: Id, a: Id, b: Id) {
    XorNumber(t, a, Width(t, a, b)) < XorNumber(t, b, Width(t, a, b))
  }

  predicate AsClose(t: Id, a: Id, b: Id) {
    XorNumber(t, a, Width(t, a, b)) == XorNumber(t, b, Width(t, a, b))
  }

  // ------------------------------------------------------------- the order

  // The first byte that differs decides, whatever comes after it.
  lemma {:induction false} FirstDifferenceDecides(t: Id, a: Id, b: Id, i: nat, n: nat)
    requires i <= n && XorNumber(t, a, i) < XorNumber(t, b, i)
    ensures XorNumber(t, a, n) < XorNumber(t, b, n)
  {
    if i < n {
      FirstDifferenceDecides(t, a, b, i, n - 1);
    }
  }

  // Padding both ids further changes nothing.
  lemma {:induction false} PaddingIsIrrelevant(t: Id, a: Id, b: Id, n: nat)
    requires n >= Width(t, a, b)
    ensures XorNumber(t, a, n) < XorNumber(t, b, n) <==> Closer(t, a, b)
    ensures XorNumber(t, a, n) == XorNumber(t, b, n) <==> AsClose(t, a, b)
  {
    if n > Width(t, a, b) {
      PaddingIsIrrelevant(t, a, b, n - 1);
      NoBytesLeft(t, a, n - 1);
      NoBytesLeft(t, b, n - 1);
    }
  }

  lemma NoBytesLeft(t: Id, a: Id, i: nat)
    requires i >= |t| && i >= |a|
    ensures XorByte(t, a, i) == 0
  {
    assert (0 as bv8) ^ 0 == 0;
  }

  // A total preorder, on ids of any mixture of lengths.
  lemma TotalPreorder(t: Id, a: Id, b: Id, c: Id)
    ensures !Closer(t, a, a) && AsClose(t, a, a)
    ensures Closer(t, a, b) || Closer(t, b, a) || AsClose(t, a, b)
    ensures !(Closer(t, a, b) && Closer(t, b, a)) && !(Closer(t, a, b) && AsClose(t, a, b))
    ensures !Closer(t, b, a) && !Closer(t, c, b) ==> !Closer(t, c, a)
  {
    var n := Max(Width(t, a, b), |c|);
    PaddingIsIrrelevant(t, a, b, n);
    PaddingIsIrrelevant(t, b, a, n);
    PaddingIsIrrelevant(t, b, c, n);
    PaddingIsIrrelevant(t, c, b, n);
    PaddingIsIrrelevant(t, a, c, n);
    PaddingIsIrrelevant(t, c, a, n);
  }

  // Ids of one length that are equally close to a target are the same id.
  lemma {:induction false} SameDistanceSameBytes(t: Id, a: Id, b: Id, n: nat)
    requires XorNumber(t, a, n) == XorNumber(t, b, n)
    ensures forall i :: 0 <= i < n ==> ByteAt(a, i) == ByteAt(b, i)
  {
    hide XorByte;
    if n > 0 {
      SameDigits(XorNumber(t, a, n - 1), XorNumber(t, b, n - 1), XorByte(t, a, n - 1), XorByte(t, b, n - 1));
      SameDistanceSameBytes(t, a, b, n - 1);
      assert XorByte(t, a, n - 1) == XorByte(t, b, n - 1);
      XorCancels(t, a, b, n - 1);
    }
  }

  lemma SameDigits(p: nat, q: nat, x: nat, y: nat)
    requires x < 256 && y < 256 && 256 * p + x == 256 * q + y
    ensures p == q && x == y
  {
  }

  lemma XorCancels(t: Id, a: Id, b: Id, i: nat)
    requires XorByte(t, a, i) == XorByte(t, b, i)
    ensures ByteAt(a, i) == ByteAt(b, i)
  {
    var x, y, z := ByteAt(t, i), ByteAt(a, i), ByteAt(b, i);
    SameNat(x ^ y, x ^ z);
    BitsCancel(x, y, z);
  }

  lemma SameNat(x: bv8, y: bv8)
    requires x as nat == y as nat
    ensures x == y
  {
    BytesDiffer(x, y);
  }

  lemma BitsCancel(x: bv8, y: bv8, z: bv8)
    ensures x ^ y == x ^ z ==> y == z
  {
  }

  lemma AsCloseOnlyItself(t: Id, a: Id, b: Id)
    requires |a| == |b|
    ensures AsClose(t, a, b) <==> a == b
  {
    if AsClose(t, a, b) {
      SameDistanceSameBytes(t, a, b, Width(t, a, b));
      assert forall i :: 0 <= i < |a| ==> ByteAt(a, i) == a[i] && ByteAt(b, i) == b[i];
    }
  }

  // ----------------------------------------------------- the three computations

  method LexicographicCompare(target: Id, a: Id, b: Id) returns (r: int)
    ensures r < 0 <==> Closer(target, a, b)
    ensures r == 0 <==> AsClose(target, a, b)
    ensures r > 0 <==> Closer(target, b, a)
  {
    var width := Max(|target|, Max(|a|, |b|));
    for i := 0 to width
      invariant XorNumber(target, a, i) == XorNumber(target, b, i)
    {
      var da: int := XorByte(target, a, i);
      var db: int := XorByte(target, b, i);
      if da != db {
        if da < db {
          FirstDifferenceDecides(target, a, b, i + 1, width);
        } else {
          FirstDifferenceDecides(target, b, a, i + 1, width);
        }
        return da - db;
      }
    }
    return 0;
  }

  // The distance of the sync protocol, padded for this pair only.
  method BigDistance(self: Id, peer: Id) returns (dist: nat)
    ensures dist == XorNumber(self, peer, Max(|self|, |peer|))
  {
    dist := 0;
    for i := 0 to Max(|self|, |peer|)
      invariant dist == XorNumber(self, peer, i)
    {
      dist := dist * 256 + XorByte(self, peer, i);
    }
  }

  function Xor(a: Id, b: Id): Id
    requires |a| == |b|
  {
    seq(|a|, i requires 0 <= i < |a| => a[i] ^ b[i])
  }

  function Number(bytes: Id): nat {
    if bytes == [] then 0 else 256 * Number(bytes[..|bytes| - 1]) + bytes[|bytes| - 1] as nat
  }

  lemma {:induction false} NumberOfXor(t: Id, a: Id, n: nat)
    requires |t| == |a| && n <= |t|
    ensures Number(Xor(t, a)[..n]) == XorNumber(t, a, n)
  {
    if n > 0 {
      NumberOfXor(t, a, n - 1);
      assert Xor(t, a)[..n][..n - 1] == Xor(t, a)[..n - 1];
    }
  }

  lemma {:induction false} PrefixDecides(x: Id, y: Id, i: nat, n: nat)
    requires i <= n <= |x| && n <= |y| && Number(x[..i]) < Number(y[..i])
    ensures Number(x[..n]) < Number(y[..n])
  {
    if i < n {
      PrefixDecides(x, y, i, n - 1);
      assert x[..n][..n - 1] == x[..n - 1] && y[..n][..n - 1] == y[..n - 1];
      assert x[n - 1] as nat < 256;
    }
  }

  lemma FirstByteDecides(x: Id, y: Id, i: nat)
    requires |x| == |y| && i < |x| && x[..i] == y[..i] && x[i] as nat < y[i] as nat
    ensures Number(x) < Number(y)
  {
    assert x[..i + 1][..i] == x[..i] && y[..i + 1][..i] == y[..i];
    PrefixDecides(x, y, i + 1, |x|);
    assert x[..|x|] == x && y[..|y|] == y;
  }

  // The comparison of the routing table: byte by byte, then by length.
  method CompareBytes(x: Id, y: Id) returns (r: int)
    ensures r == 0 <==> x == y
    ensures |x| == |y| ==> (r < 0 <==> Number(x) < Number(y)) && (r > 0 <==> Number(y) < Number(x))
  {
    var least := if |x| <= |y| then |x| else |y|;
    for i := 0 to least
      invariant x[..i] == y[..i]
    {
      if x[i] != y[i] {
        BytesDiffer(x[i], y[i]);
        if |x| == |y| {
          if x[i] as nat < y[i] as nat {
            FirstByteDecides(x, y, i);
          } else {
            FirstByteDecides(y, x, i);
          }
        }
        return x[i] as int - y[i] as int;
      }
      assert x[..i + 1] == x[..i] + [x[i]] && y[..i + 1] == y[..i] + [y[i]];
    }
    assert x[..|x|] == x && y[..|y|] == y;
    return |x| - |y|;
  }

  lemma BytesDiffer(x: bv8, y: bv8)
    ensures x as nat == y as nat ==> x == y
  {
    assert (x as nat) as bv8 == x && (y as nat) as bv8 == y;
  }

  // For ids of one length the three computations give one order.
  lemma ThreeAgree(t: Id, a: Id, b: Id)
    requires |t| == |a| == |b|
    ensures Closer(t, a, b) <==> XorNumber(t, a, Max(|t|, |a|)) < XorNumber(t, b, Max(|t|, |b|))
    ensures Closer(t, a, b) <==> Number(Xor(t, a)) < Number(Xor(t, b))
    ensures AsClose(t, a, b) <==> Number(Xor(t, a)) == Number(Xor(t, b))
  {
    NumberOfXor(t, a, |t|);
    NumberOfXor(t, b, |t|);
    assert Xor(t, a)[..|t|] == Xor(t, a) && Xor(t, b)[..|t|] == Xor(t, b);
  }

  // The order of the sync protocol: each number is padded for its own pair only.
  predicate SyncCloser(t: Id, a: Id, b: Id) {
    XorNumber(t, a, Max(|t|, |a|)) < XorNumber(t, b, Max(|t|, |b|))
  }

  ghost predicate SyncAgrees(lt: nat, la: nat, lb: nat) {
    forall t: Id, a: Id, b: Id :: |t| == lt && |a| == la && |b| == lb ==>
      (SyncCloser(t, a, b) <==> Closer(t, a, b)) && (SyncCloser(t, b, a) <==> Closer(t, b, a))
  }

  // For ids of given lengths the sync protocol has the same order exactly when
  // both pairs have the same width, or one has none at all.
  lemma SyncAgreesIff(lt: nat, la: nat, lb: nat)
    ensures SyncAgrees(lt, la, lb) <==>
            Max(lt, la) == Max(lt, lb) || Max(lt, la) == 0 || Max(lt, lb) == 0
  {
    var wa, wb := Max(lt, la), Max(lt, lb);
    if wa == wb || wa == 0 || wb == 0 {
      forall t: Id, a: Id, b: Id | |t| == lt && |a| == la && |b| == lb
        ensures (SyncCloser(t, a, b) <==> Closer(t, a, b)) && (SyncCloser(t, b, a) <==> Closer(t, b, a))
      {
        if wa == 0 {
          NothingToCompare(t, a, Width(t, a, b));
        } else if wb == 0 {
          NothingToCompare(t, b, Width(t, a, b));
        }
      }
    } else if wa < wb {
      var t, a, b := Counterexample(lt, la, lb);
      assert SyncCloser(t, a, b) && !Closer(t, a, b);
    } else {
      var t, b, a := Counterexample(lt, lb, la);
      assert SyncCloser(t, b, a) && !Closer(t, b, a);
    }
  }

  lemma {:induction false} NothingToCompare(t: Id, a: Id, n: nat)
    requires forall k :: 0 <= k < n ==> ByteAt(t, k) == ByteAt(a, k)
    ensures XorNumber(t, a, n) == 0
  {
    if n > 0 {
      NothingToCompare(t, a, n - 1);
      SameByte(ByteAt(t, n - 1));
    }
  }

  lemma SameByte(x: bv8)
    ensures x ^ x == 0 && x ^ 0 == x && 0 ^ x == x
  {
  }

  lemma {:induction false} NumberGrows(t: Id, a: Id, n: nat, m: nat)
    requires n < m
    ensures XorNumber(t, a, m) >= 256 * XorNumber(t, a, n)
  {
    if n + 1 < m {
      NumberGrows(t, a, n, m - 1);
    }
  }

  // The distance 1, read with fewer bytes than the distance 2.
  lemma Counterexample(lt: nat, la: nat, lb: nat) returns (t: Id, a: Id, b: Id)
    requires 0 < Max(lt, la) < Max(lt, lb)
    ensures |t| == lt && |a| == la && |b| == lb && SyncCloser(t, a, b) && Closer(t, b, a)
  {
    var wa, wb := Max(lt, la), Max(lt, lb);
    t := seq(lt, k => if la < wa && k == wa - 1 then 1 else 0);
    a := seq(la, k => if la == wa && k == wa - 1 then 1 else 0);
    b := seq(lb, k requires 0 <= k < lb => if k == wb - 1 then 2 else ByteAt(t, k));
    OneByte(t, a, wa, 1);
    OneByte(t, b, wb, 2);
    NumberGrows(t, a, wa, wb);
  }

  lemma OneByte(t: Id, a: Id, n: nat, v: bv8)
    requires n > 0 && (forall k :: 0 <= k < n - 1 ==> ByteAt(t, k) == ByteAt(a, k))
    requires (ByteAt(t, n - 1) == 0 && ByteAt(a, n - 1) == v) || (ByteAt(t, n - 1) == v && ByteAt(a, n - 1) == 0)
    ensures XorNumber(t, a, n) == v as nat
  {
    NothingToCompare(t, a, n - 1);
    SameByte(v);
  }

  // For ids of different lengths the number of the sync protocol may order the
  // other way round, because it is not padded to a common width.
  lemma SyncDiffersOnMixedLengths()
    ensures exists t: Id, a: Id, b: Id ::
      Closer(t, a, b) && XorNumber(t, b, Max(|t|, |b|)) < XorNumber(t, a, Max(|t|, |a|))
  {
    var t: Id, a: Id, b: Id := [0], [1, 0], [2];
    assert ByteAt(t, 0) ^ ByteAt(a, 0) == 1 && ByteAt(t, 1) ^ ByteAt(a, 1) == 0;
    assert ByteAt(t, 0) ^ ByteAt(b, 0) == 2 && ByteAt(t, 1) ^ ByteAt(b, 1) == 0;
    assert XorByte(t, a, 0) == 1 && XorByte(t, a, 1) == 0 && XorByte(t, b, 0) == 2 && XorByte(t, b, 1) == 0;
    assert XorNumber(t, a, 1) == 1 && XorNumber(t, a, 2) == 256;
    assert XorNumber(t, b, 1) == 2 && XorNumber(t, b, 2) == 512;
    assert Closer(t, a, b);
  }
}
