/**
 * The routing table: a flat table of peers and 256 buckets by the length of the
 * prefix that a peer's id shares with the node's own.
 */
module RoutingTable {
  import opened Messages
  import opened XorMetric
  import opened Modular

  const BUCKETS := 256
  const BUCKET_SIZE := 20
  const STALE_AFTER_MS := 300_000

  datatype Entry = Entry(lastSeen: int, isAvailable: bool)

  // ------------------------------------------------------------- ids

  function Digit(c: char): (d: Option<nat>)
    ensures d.Some? ==> d.value < 16
  {
    if '0' <= c <= '9' then Some((c as int) - ('0' as int))
    else if 'a' <= c <= 'f' then Some((c as int) - ('a' as int) + 10)
    else if 'A' <= c <= 'F' then Some((c as int) - ('A' as int) + 10)
    else None
  }

  predicate IsHex(s: string) {
    s != [] && forall i :: 0 <= i < |s| ==> Digit(s[i]).Some?
  }

  function Nibble(d: nat): bv8
    requires d < 16
  {
    [0, 1, 2, 3, 4, 5, 6, 7, 8, 9, 10, 11, 12, 13, 14, 15][d]
  }

  function ByteOf(c: char, d: char): bv8
    requires Digit(c).Some? && Digit(d).Some?
  {
    (Nibble(Digit(c).value) << 4) | Nibble(Digit(d).value)
  }

  // Pairs of digits up to the first character that is none; a last odd digit is dropped.
  function Decode(s: string): Id {
    if |s| >= 2 && Digit(s[0]).Some? && Digit(s[1]).Some? then [ByteOf(s[0], s[1])] + Decode(s[2..]) else []
  }

  // ------------------------------------------------------------- buckets

  // Zero bits at the top of a byte.
  function LeadingZeros(b: nat): (z: nat)
    requires 0 < b < 256
    ensures z <= 7
  {
    if b >= 128 then 0
    else if b >= 64 then 1
    else if b >= 32 then 2
    else if b >= 16 then 3
    else if b >= 8 then 4
    else if b >= 4 then 5
    else if b >= 2 then 6
    else 7
  }

  // Zero bits at the front of a distance; 255 when there is nothing else.
  function ZeroPrefix(d: Id, i: nat): nat
    requires i <= |d|
    decreases |d| - i
  {
    if i == |d| then 255
    else if d[i] != 0 then i * 8 + LeadingZeros(AsNumber(d[i]))
    else ZeroPrefix(d, i + 1)
  }

  function AsNumber(b: bv8): (n: nat)
    requires b != 0
    ensures 0 < n < 256
  {
    BytesDiffer(b, 0);
    b as nat
  }

  function BucketId(self: string, peer: string): nat {
    if !IsHex(peer) || !IsHex(self) || |Decode(self)| != |Decode(peer)| then 255
    else ZeroPrefix(Xor(Decode(self), Decode(peer)), 0)
  }

  // Digits stand for their place in the usual row, in either case.
  lemma DigitsAre(k: nat, c: char)
    requires k < 16
    ensures Digit("0123456789abcdef"[k]) == Digit("0123456789ABCDEF"[k]) == Some(k)
    ensures Digit(c).Some? ==> c in "0123456789abcdefABCDEF"
  {
    assert Digit(c).Some? ==> var i := Digit(c).value;
      "0123456789abcdefABCDEF"[i] == c || "0123456789abcdefABCDEF"[i + 6] == c;
  }

  lemma NibbleIs(d: nat)
    requires d < 16
    ensures Nibble(d) < 16 && Nibble(d) as nat == d
  {
  }

  // A pair of digits stands for sixteen times the first plus the second.
  lemma PairIs(c: char, d: char)
    requires Digit(c).Some? && Digit(d).Some?
    ensures ByteOf(c, d) as nat == 16 * Digit(c).value + Digit(d).value
  {
    NibbleIs(Digit(c).value);
    NibbleIs(Digit(d).value);
    PairOfNibbles(Nibble(Digit(c).value), Nibble(Digit(d).value));
    hide Nibble, Digit;
  }

  lemma PairOfNibbles(x: bv8, y: bv8)
    requires x < 16 && y < 16
    ensures ((x << 4) | y) as nat == 16 * (x as nat) + (y as nat)
  {
  }

  // Where the first non-zero byte of a distance is.
  lemma {:induction false} ZeroPrefixIs(d: Id, i: nat) returns (k: nat)
    requires i <= |d| && forall j :: 0 <= j < i ==> d[j] == 0
    ensures i <= k <= |d| && forall j :: 0 <= j < k ==> d[j] == 0
    ensures k < |d| ==> d[k] != 0 && ZeroPrefix(d, i) == k * 8 + LeadingZeros(AsNumber(d[k]))
    ensures k == |d| ==> ZeroPrefix(d, i) == 255
    decreases |d| - i
  {
    if i == |d| || d[i] != 0 {
      k := i;
    } else {
      k := ZeroPrefixIs(d, i + 1);
    }
  }

  lemma TopBit(b: nat)
    requires 0 < b < 256
    ensures Power2(7 - LeadingZeros(b)) <= b < Power2(8 - LeadingZeros(b))
  {
    assert Power2(8) == 256 && Power2(7) == 128 && Power2(6) == 64 && Power2(5) == 32;
    assert Power2(4) == 16 && Power2(3) == 8 && Power2(2) == 4 && Power2(1) == 2 && Power2(0) == 1;
  }

  lemma EightMore(m: nat)
    ensures Power2(m + 8) == 256 * Power2(m)
  {
    assert Power2(m + 1) == 2 * Power2(m) && Power2(m + 2) == 2 * Power2(m + 1);
    assert Power2(m + 3) == 2 * Power2(m + 2) && Power2(m + 4) == 2 * Power2(m + 3);
    assert Power2(m + 5) == 2 * Power2(m + 4) && Power2(m + 6) == 2 * Power2(m + 5);
    assert Power2(m + 7) == 2 * Power2(m + 6) && Power2(m + 8) == 2 * Power2(m + 7);
  }

  lemma {:induction false} ZerosAreNothing(d: Id, k: nat)
    requires k <= |d| && forall j :: 0 <= j < k ==> d[j] == 0
    ensures Number(d[..k]) == 0
  {
    if k > 0 {
      ZerosAreNothing(d, k - 1);
      assert d[..k][..k - 1] == d[..k - 1];
    }
  }

  lemma OneMoreByte(d: Id, n: nat)
    requires n < |d|
    ensures Number(d[..n + 1]) == 256 * Number(d[..n]) + d[n] as nat && (d[n] as nat) < 256
  {
    assert d[..n + 1][..n] == d[..n];
  }

  // The first byte that is not zero is the k-th, and has `zeros` zero bits before it.
  lemma {:induction false} NumberInRange(d: Id, k: nat, zeros: nat, n: nat)
    requires k < n <= |d| && d[k] != 0 && zeros == LeadingZeros(AsNumber(d[k])) && Number(d[..k]) == 0
    ensures Power2(8 * (n - k) - 1 - zeros) <= Number(d[..n]) < Power2(8 * (n - k) - zeros)
    decreases n
  {
    hide Power2, Number, LeadingZeros, AsNumber;
    OneMoreByte(d, n - 1);
    if n == k + 1 {
      TopBit(AsNumber(d[k]));
      SameNumber(d[k]);
    } else {
      NumberInRange(d, k, zeros, n - 1);
      var m := 8 * (n - 1 - k) - zeros;
      EightMore(m - 1);
      EightMore(m);
      assert 8 * (n - k) - zeros == m + 8;
    }
  }

  lemma SameNumber(b: bv8)
    requires b != 0
    ensures AsNumber(b) == b as nat
  {
  }

  // The bucket number is the number of leading zero bits of the distance: the
  // distance lies between two neighbouring powers of two.
  lemma BucketIsLogarithm(self: string, peer: string)
    requires IsHex(self) && IsHex(peer) && |Decode(self)| == |Decode(peer)|
    ensures var d, zeros := Xor(Decode(self), Decode(peer)), BucketId(self, peer);
            if forall j :: 0 <= j < |d| ==> d[j] == 0 then zeros == 255
            else zeros < 8 * |d| && Power2(8 * |d| - 1 - zeros) <= Number(d) < Power2(8 * |d| - zeros)
  {
    hide IsHex, Decode, Xor, Number, Power2, LeadingZeros, AsNumber;
    var d := Xor(Decode(self), Decode(peer));
    var k := ZeroPrefixIs(d, 0);
    if k < |d| {
      ZerosAreNothing(d, k);
      NumberInRange(d, k, LeadingZeros(AsNumber(d[k])), |d|);
      assert d[..|d|] == d;
    }
  }

  // For ids of one length, a larger bucket number means strictly closer.
  lemma LargerBucketIsCloser(self: string, a: string, b: string)
    requires IsHex(self) && IsHex(a) && IsHex(b)
    requires |Decode(self)| == |Decode(a)| == |Decode(b)| <= 32
    requires BucketId(self, a) < BucketId(self, b)
    ensures Closer(Decode(self), Decode(b), Decode(a))
  {
    var x, y := Xor(Decode(self), Decode(a)), Xor(Decode(self), Decode(b));
    var i := ZeroPrefixIs(x, 0);
    var j := ZeroPrefixIs(y, 0);
    assert i < |x| && i <= j;
    assert x[..i] == y[..i];
    assert (0 as bv8) as nat == 0;
    if j < |y| && j == i {
      assert AsNumber(y[i]) < AsNumber(x[i]);
    }
    FirstByteDecides(y, x, i);
    ThreeAgree(Decode(self), Decode(b), Decode(a));
  }

  // ------------------------------------------------------- the two tables

  datatype Tables = Tables(flat: map<string, Entry>, buckets: seq<map<string, Entry>>)

  function NoTables(): (t: Tables)
    ensures WellFormed(t)
  {
    Tables(map[], seq(BUCKETS, _ => map[]))
  }

  predicate WellFormed(t: Tables) {
    |t.buckets| == BUCKETS
  }

  // A peer that its bucket already holds keeps the entry it has there.
  function PutNew(buckets: seq<map<string, Entry>>, i: nat, peer: string, entry: Entry): seq<map<string, Entry>> {
    if i < |buckets| && peer !in buckets[i] then buckets[i := buckets[i][peer := entry]] else buckets
  }

  function Refresh(buckets: seq<map<string, Entry>>, i: nat, peer: string, entry: Entry): seq<map<string, Entry>> {
    if i < |buckets| && peer in buckets[i] then buckets[i := buckets[i][peer := entry]] else buckets
  }

  function Added(t: Tables, self: string, peer: string, entry: Entry): Tables
    requires WellFormed(t)
  {
    Tables(t.flat[peer := entry], PutNew(t.buckets, BucketId(self, peer), peer, entry))
  }

  function Without(t: Tables, gone: set<string>): Tables {
    Tables(t.flat - gone, seq(|t.buckets|, i requires 0 <= i < |t.buckets| => t.buckets[i] - gone))
  }

  function Updated(t: Tables, self: string, peer: string, entry: Entry): Tables
    requires WellFormed(t)
  {
    if peer !in t.flat then Added(t, self, peer, entry)
    else Tables(t.flat[peer := entry], Refresh(t.buckets, BucketId(self, peer), peer, entry))
  }

  function Stale(entries: map<string, Entry>, now: int, threshold: int): set<string> {
    set p | p in entries && now - entries[p].lastSeen > threshold
  }

  function Fresh(entries: map<string, Entry>, now: int): map<string, Entry> {
    entries - Stale(entries, now, STALE_AFTER_MS)
  }

  // Each bucket by its own timestamps.
  function Optimized(t: Tables, now: int): Tables {
    Tables(t.flat - StaleInBuckets(t, now),
           seq(|t.buckets|, i requires 0 <= i < |t.buckets| => Fresh(t.buckets[i], now)))
  }

  function StaleInBuckets(t: Tables, now: int): set<string> {
    set i: nat, p | 0 <= i < |t.buckets| && p in Stale(t.buckets[i], now, STALE_AFTER_MS) :: p
  }

  function Evicted(t: Tables, i: nat, peer: string): Tables
    requires i < |t.buckets|
  {
    Tables(t.flat - {peer}, t.buckets[i := t.buckets[i] - {peer}])
  }

  // Removing peers takes them out of both tables and leaves all other entries.
  lemma WithoutIs(t: Tables, gone: set<string>, p: string, i: nat)
    requires i < |t.buckets|
    ensures var t' := Without(t, gone);
            && |t'.buckets| == |t.buckets|
            && (p in gone ==> p !in t'.flat && p !in t'.buckets[i])
            && (p !in gone ==> (p in t'.flat <==> p in t.flat) && (p in t'.buckets[i] <==> p in t.buckets[i]))
            && (p in t'.flat ==> t'.flat[p] == t.flat[p]) && (p in t'.buckets[i] ==> t'.buckets[i][p] == t.buckets[i][p])
  {
  }

  // An evicted peer leaves the flat table and the bucket it is evicted from, and
  // nothing else changes.
  lemma EvictedIs(t: Tables, i: nat, peer: string, p: string, j: nat)
    requires i < |t.buckets| && j < |t.buckets|
    ensures var t' := Evicted(t, i, peer);
            && |t'.buckets| == |t.buckets| && peer !in t'.flat && peer !in t'.buckets[i]
            && (p != peer ==> (p in t'.flat <==> p in t.flat) && (p in t'.buckets[j] <==> p in t.buckets[j]))
            && (j != i ==> t'.buckets[j] == t.buckets[j])
            && (p in t'.flat ==> t'.flat[p] == t.flat[p]) && (p in t'.buckets[j] ==> t'.buckets[j][p] == t.buckets[j][p])
  {
  }

  // ------------------------------------------------------------ partition

  // Each bucket holds exactly the peers of the flat table that belong to it.
  ghost predicate Partitioned(t: Tables, self: string) {
    && WellFormed(t)
    && (forall p :: p in t.flat ==> BucketId(self, p) < BUCKETS)
    && (forall i, p :: 0 <= i < BUCKETS ==> (p in t.buckets[i] <==> p in t.flat && BucketId(self, p) == i))
  }

  function InBuckets(t: Tables): set<string> {
    set i: nat, p | 0 <= i < |t.buckets| && p in t.buckets[i] :: p
  }

  // Half of that holds for every own id: a bucket has only peers of its own.
  ghost predicate Placed(t: Tables, self: string) {
    && WellFormed(t)
    && forall i, p :: 0 <= i < BUCKETS && p in t.buckets[i] ==> p in t.flat && BucketId(self, p) == i
  }

  // The flat table's keys are the union of the bucket keys, and no peer is in two buckets.
  lemma PartitionIsDisjointUnion(t: Tables, self: string)
    requires Partitioned(t, self)
    ensures Placed(t, self) && t.flat.Keys == InBuckets(t)
    ensures forall i, j :: 0 <= i < j < BUCKETS ==> t.buckets[i].Keys !! t.buckets[j].Keys
  {
    forall p | p in t.flat ensures exists i: nat :: 0 <= i < BUCKETS && p in t.buckets[i] {
      assert p in t.buckets[BucketId(self, p)];
    }
    forall i, j | 0 <= i < j < BUCKETS ensures t.buckets[i].Keys !! t.buckets[j].Keys {
      assert forall p :: p in t.buckets[i] && p in t.buckets[j] ==> i == BucketId(self, p) == j;
    }
  }

  lemma AddKeeps(t: Tables, self: string, peer: string, entry: Entry)
    requires Partitioned(t, self) && BucketId(self, peer) < BUCKETS
    ensures Partitioned(Added(t, self, peer, entry), self)
  {
    hide BucketId;
  }

  lemma UpdateKeeps(t: Tables, self: string, peer: string, entry: Entry)
    requires Partitioned(t, self) && BucketId(self, peer) < BUCKETS
    ensures Partitioned(Updated(t, self, peer, entry), self)
  {
    hide BucketId;
  }

  lemma WithoutKeeps(t: Tables, self: string, gone: set<string>)
    requires Partitioned(t, self)
    ensures Partitioned(Without(t, gone), self)
  {
    hide BucketId;
  }

  lemma OptimizeKeeps(t: Tables, self: string, now: int)
    requires Partitioned(t, self)
    ensures Partitioned(Optimized(t, now), self)
  {
    hide BucketId;
    var t' := Optimized(t, now);
    forall i, p | 0 <= i < BUCKETS ensures p in t'.buckets[i] <==> p in t'.flat && BucketId(self, p) == i {
      if p in t.flat && BucketId(self, p) == i {
        assert p in StaleInBuckets(t, now) <==> p in Stale(t.buckets[i], now, STALE_AFTER_MS);
      }
    }
  }

  lemma EvictKeeps(t: Tables, self: string, peer: string)
    requires Partitioned(t, self) && BucketId(self, peer) < BUCKETS
    ensures Partitioned(Evicted(t, BucketId(self, peer), peer), self)
  {
    hide BucketId;
  }

  // ----------------------------------------------------------------- runs

  datatype Op =
    | Add(peer: string, entry: Entry)
    | Remove(peer: string)
    | Update(peer: string, entry: Entry)
    | CleanUp(now: int, threshold: int)
    | Optimize(now: int)
    | Evict(peer: string)

  function Do(t: Tables, self: string, op: Op): Tables
    requires WellFormed(t)
  {
    match op
    case Add(peer, entry) => Added(t, self, peer, entry)
    case Remove(peer) => Without(t, {peer})
    case Update(peer, entry) => Updated(t, self, peer, entry)
    case CleanUp(now, threshold) => Without(t, Stale(t.flat, now, threshold))
    case Optimize(now) => Optimized(t, now)
    case Evict(peer) => if BucketId(self, peer) < BUCKETS then Evicted(t, BucketId(self, peer), peer) else t
  }

  function Run(self: string, ops: seq<Op>): (t: Tables)
    ensures WellFormed(t)
  {
    if ops == [] then NoTables() else Do(Run(self, ops[..|ops| - 1]), self, ops[|ops| - 1])
  }

  // Own ids for which every peer has a bucket: up to 32 bytes, or no hex at all.
  predicate FitsBuckets(self: string) {
    !IsHex(self) || |Decode(self)| <= 32
  }

  lemma BucketExists(self: string, peer: string)
    requires FitsBuckets(self)
    ensures BucketId(self, peer) < BUCKETS
  {
    if IsHex(peer) && IsHex(self) && |Decode(self)| == |Decode(peer)| {
      var k := ZeroPrefixIs(Xor(Decode(self), Decode(peer)), 0);
    }
  }

  lemma {:induction false} RunKeeps(self: string, ops: seq<Op>)
    requires FitsBuckets(self)
    ensures Partitioned(Run(self, ops), self)
  {
    if ops != [] {
      var front, op := ops[..|ops| - 1], ops[|ops| - 1];
      RunKeeps(self, front);
      var t := Run(self, front);
      match op
      case Add(peer, entry) => BucketExists(self, peer); AddKeeps(t, self, peer, entry);
      case Remove(peer) => WithoutKeeps(t, self, {peer});
      case Update(peer, entry) => BucketExists(self, peer); UpdateKeeps(t, self, peer, entry);
      case CleanUp(now, threshold) => WithoutKeeps(t, self, Stale(t.flat, now, threshold));
      case Optimize(now) => OptimizeKeeps(t, self, now);
      case Evict(peer) => BucketExists(self, peer); EvictKeeps(t, self, peer);
    }
  }

  lemma StaleInOwn(t: Tables, self: string, now: int, i: nat, p: string)
    requires Placed(t, self) && i < BUCKETS && p in t.buckets[i]
    ensures p in StaleInBuckets(t, now) <==> p in Stale(t.buckets[i], now, STALE_AFTER_MS)
  {
    hide BucketId;
    if p in StaleInBuckets(t, now) {
      var j: nat :| j < |t.buckets| && p in Stale(t.buckets[j], now, STALE_AFTER_MS);
      assert p in t.buckets[j];
      assert i == BucketId(self, p);
      assert j == BucketId(self, p);
    }
  }

  lemma StepPlaced(t: Tables, self: string, op: Op)
    requires Placed(t, self)
    ensures Placed(Do(t, self, op), self)
  {
    hide BucketId;
    var t' := Do(t, self, op);
    forall i, p | 0 <= i < BUCKETS && p in t'.buckets[i] ensures p in t'.flat && BucketId(self, p) == i {
      if op.Optimize? {
        StaleInOwn(t, self, op.now, i, p);
      }
    }
  }

  // After every run, whatever the own id.
  lemma {:induction false} RunPlaced(self: string, ops: seq<Op>)
    ensures Placed(Run(self, ops), self)
  {
    if ops != [] {
      RunPlaced(self, ops[..|ops| - 1]);
      StepPlaced(Run(self, ops[..|ops| - 1]), self, ops[|ops| - 1]);
    }
  }

  lemma DecodeNothing(s: string)
    requires |s| < 2
    ensures Decode(s) == []
  {
  }

  lemma DecodeStep(s: string)
    requires IsHex(s) && |s| >= 2
    ensures Decode(s) == [ByteOf(s[0], s[1])] + Decode(s[2..])
    ensures |s| >= 3 ==> IsHex(s[2..])
    ensures |s| == 2 ==> Decode(s[2..]) == []
  {
  }

  lemma {:induction false} DecodeAt(s: string, j: nat)
    requires IsHex(s)
    ensures |Decode(s)| == |s| / 2
    ensures j < |s| / 2 ==> Decode(s)[j] == ByteOf(s[2 * j], s[2 * j + 1])
    decreases |s|
  {
    hide Decode, Digit, ByteOf, IsHex;
    if |s| < 2 {
      DecodeNothing(s);
    } else {
      DecodeStep(s);
      if |s| >= 3 {
        DecodeAt(s[2..], if j > 0 then j - 1 else 0);
      }
    }
  }

  // A peer that shares the first 32 bytes with an own id of more than 32 has no bucket.
  lemma NoBucketFor(self: string) returns (peer: string)
    requires !FitsBuckets(self)
    ensures BucketId(self, peer) >= BUCKETS
  {
    DecodeAt(self, 32);
    var c := if self[64] == '0' then '1' else '0';
    peer := self[64 := c];
    OneDigitChanged(self, c);
    FirstDigitDiffers(self[64], c, self[65]);
    assert IsHex(peer);
    hide IsHex, Decode, Digit, ByteOf;
    FirstByteDiffers(Decode(self), Decode(peer), 32);
  }

  lemma OneDigitChanged(self: string, c: char)
    requires IsHex(self) && |self| >= 66 && Digit(c).Some?
    ensures var peer := self[64 := c];
            && |Decode(peer)| == |Decode(self)| > 32
            && (forall j :: 0 <= j < 32 ==> Decode(peer)[j] == Decode(self)[j])
            && Decode(peer)[32] == ByteOf(c, self[65])
  {
    var peer := self[64 := c];
    assert IsHex(peer);
    hide Decode, Digit, ByteOf, IsHex;
    DecodeAt(self, 32);
    DecodeAt(peer, 32);
    forall j | 0 <= j < 32 ensures Decode(peer)[j] == Decode(self)[j] {
      DecodeAt(self, j);
      DecodeAt(peer, j);
    }
  }

  lemma FirstByteDiffers(x: Id, y: Id, k: nat)
    requires |x| == |y| && k < |x| && x[k] != y[k] && forall j :: 0 <= j < k ==> x[j] == y[j]
    ensures ZeroPrefix(Xor(x, y), 0) >= 8 * k
  {
    var d := Xor(x, y);
    forall j | 0 <= j < k ensures d[j] == 0 {
      XorSelf(x[j]);
    }
    XorDiffers(x[k], y[k]);
    assert d[k] != 0;
    var i := ZeroPrefixIs(d, 0);
    assert i == k;
  }

  lemma XorSelf(x: bv8)
    ensures x ^ x == 0
  {
  }

  lemma XorDiffers(x: bv8, y: bv8)
    ensures x ^ y == 0 ==> x == y
  {
  }

  lemma FirstDigitDiffers(c: char, c': char, d: char)
    requires Digit(c).Some? && Digit(d).Some? && c' == (if c == '0' then '1' else '0')
    ensures ByteOf(c, d) != ByteOf(c', d)
  {
    ShiftDiffers(Nibble(Digit(c).value), Nibble(Digit(c').value), Nibble(Digit(d).value));
  }

  lemma ShiftDiffers(x: bv8, y: bv8, low: bv8)
    ensures x < 16 && y < 16 && low < 16 && x != y ==> (x << 4) | low != (y << 4) | low
  {
  }

  // The two tables agree after every run exactly when the own id fits the buckets.
  lemma PartitionIff(self: string)
    ensures (forall ops: seq<Op> :: Partitioned(Run(self, ops), self)) <==> FitsBuckets(self)
  {
    if FitsBuckets(self) {
      forall ops: seq<Op> ensures Partitioned(Run(self, ops), self) {
        RunKeeps(self, ops);
      }
    } else {
      var peer := NoBucketFor(self);
      var ops := [Add(peer, Entry(0, true))];
      assert ops[..0] == [];
      assert peer in Run(self, ops).flat;
      assert !Partitioned(Run(self, ops), self);
    }
  }

  // The new entry of an operation, if it puts one into the peer's bucket.
  function NewBucketEntry(t: Tables, op: Op, peer: string): Option<Entry> {
    match op
    case Add(p, entry) => if p == peer && peer !in t.flat then Some(entry) else None
    case Update(p, entry) => if p == peer then Some(entry) else None
    case _ => None
  }

  // The entry that a peer's bucket got last: from the operation that inserted
  // the peer, or from an update since. Adding a known peer again leaves it alone.
  function BucketEntry(self: string, ops: seq<Op>, peer: string): Entry
    requires peer in Run(self, ops).flat
    decreases |ops|
  {
    var front := ops[..|ops| - 1];
    var e := NewBucketEntry(Run(self, front), ops[|ops| - 1], peer);
    if e.Some? then e.value else BucketEntry(self, front, peer)
  }

  lemma BucketStep(t: Tables, self: string, op: Op, peer: string)
    requires Partitioned(t, self) && peer in Do(t, self, op).flat && Partitioned(Do(t, self, op), self)
    ensures var i, t', e := BucketId(self, peer), Do(t, self, op), NewBucketEntry(t, op, peer);
            && i < BUCKETS && peer in t'.buckets[i]
            && (if e.Some? then t'.buckets[i][peer] == e.value
                else peer in t.buckets[i] && t'.buckets[i][peer] == t.buckets[i][peer])
  {
    hide BucketId;
    var i := BucketId(self, peer);
    assert peer in Do(t, self, op).buckets[i];
    assert peer in t.flat ==> peer in t.buckets[i];
  }

  lemma {:induction false} BucketHolds(self: string, ops: seq<Op>, peer: string)
    requires FitsBuckets(self) && peer in Run(self, ops).flat
    ensures var i := BucketId(self, peer);
            && i < BUCKETS && peer in Run(self, ops).buckets[i]
            && Run(self, ops).buckets[i][peer] == BucketEntry(self, ops, peer)
    decreases |ops|
  {
    var front, op := ops[..|ops| - 1], ops[|ops| - 1];
    RunKeeps(self, ops);
    RunKeeps(self, front);
    BucketStep(Run(self, front), self, op, peer);
    hide BucketId, FitsBuckets, Do, Partitioned;
    if NewBucketEntry(Run(self, front), op, peer).None? {
      BucketHolds(self, front, peer);
    }
  }

  // After every run, the next optimization drops a peer if and only if the entry
  // in its bucket is too old, however fresh the one in the flat table is.
  lemma OptimizeDropsIff(self: string, ops: seq<Op>, peer: string, now: int)
    requires FitsBuckets(self) && peer in Run(self, ops).flat
    ensures peer !in Run(self, ops + [Optimize(now)]).flat <==>
            now - BucketEntry(self, ops, peer).lastSeen > 5 * 60 * 1000
  {
    BucketHolds(self, ops, peer);
    RunKeeps(self, ops);
    assert (ops + [Optimize(now)])[..|ops|] == ops;
    hide BucketId, FitsBuckets;
    StaleInOwn(Run(self, ops), self, now, BucketId(self, peer), peer);
  }

  // A peer added a second time just now is dropped all the same, one updated just
  // now stays.
  lemma OnlyUpdateRefreshesBucket(self: string, peer: string, first: Entry, again: Entry)
    requires FitsBuckets(self) && again.lastSeen - first.lastSeen > 5 * 60 * 1000
    ensures peer !in Run(self, [Add(peer, first), Add(peer, again), Optimize(again.lastSeen)]).flat
    ensures peer in Run(self, [Add(peer, first), Update(peer, again), Optimize(again.lastSeen)]).flat
  {
    var one := [Add(peer, first)];
    assert one[..0] == [] && peer in Run(self, one).flat && BucketEntry(self, one, peer) == first;
    forall second: Op | second == Add(peer, again) || second == Update(peer, again)
      ensures var ops := [Add(peer, first), second];
              && peer in Run(self, ops).flat
              && (peer !in Run(self, ops + [Optimize(again.lastSeen)]).flat <==>
                    again.lastSeen - BucketEntry(self, ops, peer).lastSeen > 5 * 60 * 1000)
              && BucketEntry(self, ops, peer) == (if second.Add? then first else again)
    {
      var ops := [Add(peer, first), second];
      assert ops[..1] == one;
      OptimizeDropsIff(self, ops, peer, again.lastSeen);
    }
    assert [Add(peer, first), Add(peer, again)] + [Optimize(again.lastSeen)]
        == [Add(peer, first), Add(peer, again), Optimize(again.lastSeen)];
    assert [Add(peer, first), Update(peer, again)] + [Optimize(again.lastSeen)]
        == [Add(peer, first), Update(peer, again), Optimize(again.lastSeen)];
  }

  // -------------------------------------------------------------- methods

  class RoutingModule {
    const selfId: string
    var routingTable: map<string, Entry>
    var buckets: seq<map<string, Entry>>

    ghost function View(): Tables
      reads this
    {
      Tables(routingTable, buckets)
    }

    constructor (selfId: string)
      ensures this.selfId == selfId && View() == NoTables()
    {
      this.selfId := selfId;
      routingTable := map[];
      buckets := seq(BUCKETS, _ => map[]);
    }

    method GetBucketIdForPeer(peer: string) returns (id: nat)
      ensures id == BucketId(selfId, peer)
    {
      if !IsHex(peer) || !IsHex(selfId) || |Decode(peer)| != |Decode(selfId)| {
        return 255;
      }
      var dist := Xor(Decode(selfId), Decode(peer));
      for i := 0 to |dist|
        invariant ZeroPrefix(dist, 0) == ZeroPrefix(dist, i)
      {
        if dist[i] != 0 {
          return i * 8 + LeadingZeros(AsNumber(dist[i]));
        }
      }
      return 255;
    }

    // Also names the peer that an overfull bucket would like to evict: one that
    // was seen least recently. Its eviction waits for a ping.
    method AddPeer(peer: string, isAvailable: bool, now: int) returns (victim: Option<string>)
      requires WellFormed(View())
      modifies this`routingTable, this`buckets
      ensures View() == Added(old(View()), selfId, peer, Entry(now, isAvailable))
      ensures var i := BucketId(selfId, peer);
              && (i >= 256 || |buckets[i]| <= 20 ==> victim == None)
              && (i < 256 && |buckets[i]| > 20 && "" !in buckets[i] ==> victim.Some?)
      ensures victim.Some? ==>
        var i := BucketId(selfId, peer);
        i < BUCKETS && victim.value in buckets[i] && forall q :: q in buckets[i] ==>
          buckets[i][victim.value].lastSeen <= buckets[i][q].lastSeen
    {
      var entry := Entry(now, isAvailable);
      routingTable := routingTable[peer := entry];
      var i := GetBucketIdForPeer(peer);
      victim := None;
      if i < BUCKETS {
        if peer !in buckets[i] {
          buckets := buckets[i := buckets[i][peer := entry]];
        }
        if |buckets[i]| > BUCKET_SIZE {
          var oldest := Oldest(buckets[i]);
          victim := if oldest == "" then None else Some(oldest);
        }
      }
    }

    static method Oldest(entries: map<string, Entry>) returns (oldest: string)
      requires |entries| > 0
      ensures oldest in entries && forall q :: q in entries ==> entries[oldest].lastSeen <= entries[q].lastSeen
    {
      assert entries.Keys != {};
      oldest :| oldest in entries.Keys;
      var todo := entries.Keys;
      while todo != {}
        invariant todo <= entries.Keys && oldest in entries
        invariant forall q :: q in entries && q !in todo ==> entries[oldest].lastSeen <= entries[q].lastSeen
        decreases |todo|
      {
        var p :| p in todo;
        todo := todo - {p};
        if entries[p].lastSeen < entries[oldest].lastSeen {
          oldest := p;
        }
      }
    }

    // After the ping: a dead peer leaves its bucket and the flat table.
    method FinishEviction(i: nat, peer: string, alive: bool)
      requires WellFormed(View()) && i < BUCKETS
      modifies this`routingTable, this`buckets
      ensures View() == if alive then old(View()) else Evicted(old(View()), i, peer)
    {
      if alive {
        return;
      }
      buckets := buckets[i := buckets[i] - {peer}];
      routingTable := routingTable - {peer};
    }

    method RemovePeer(peer: string)
      modifies this`routingTable, this`buckets
      ensures View() == Without(old(View()), {peer})
    {
      routingTable := routingTable - {peer};
      ghost var before := buckets;
      for i := 0 to |buckets|
        invariant |buckets| == |before| && routingTable == old(routingTable) - {peer}
        invariant forall j :: 0 <= j < |before| ==> buckets[j] == if j < i then before[j] - {peer} else before[j]
      {
        if peer in buckets[i] {
          buckets := buckets[i := buckets[i] - {peer}];
        } else {
          assert buckets[i] - {peer} == buckets[i];
        }
      }
      assert buckets == Without(old(View()), {peer}).buckets;
    }

    method UpdateEntry(peer: string, isAvailable: bool, now: int)
      requires WellFormed(View())
      modifies this`routingTable, this`buckets
      ensures View() == Updated(old(View()), selfId, peer, Entry(now, isAvailable))
    {
      var entry := Entry(now, isAvailable);
      if peer in routingTable {
        routingTable := routingTable[peer := entry];
        var i := GetBucketIdForPeer(peer);
        if i < BUCKETS && peer in buckets[i] {
          buckets := buckets[i := buckets[i][peer := entry]];
        }
      } else {
        var _ := AddPeer(peer, isAvailable, now);
      }
    }

    method CleanupStaleEntries(now: int, threshold: int) returns (removed: nat)
      modifies this`routingTable, this`buckets
      ensures View() == Without(old(View()), Stale(old(routingTable), now, threshold))
      ensures removed == |Stale(old(routingTable), now, threshold)|
    {
      ghost var before := View();
      var entries := routingTable;
      var todo := Stale(entries, now, threshold);
      ghost var stale := todo;
      removed := 0;
      WithoutNobody(before);
      assert stale - todo == {};
      while todo != {}
        invariant todo <= stale && removed == |stale - todo|
        invariant View() == Without(before, stale - todo)
        decreases |todo|
      {
        var peer :| peer in todo;
        WithoutTwice(before, stale - todo, {peer});
        assert stale - (todo - {peer}) == (stale - todo) + {peer};
        todo := todo - {peer};
        RemovePeer(peer);
        removed := removed + 1;
      }
      assert stale - todo == stale;
    }

    method OptimizeBuckets(now: int)
      modifies this`routingTable, this`buckets
      ensures View() == Optimized(old(View()), now)
    {
      ghost var before := View();
      ghost var gone: set<string> := {};
      for i := 0 to |buckets|
        invariant |buckets| == |before.buckets|
        invariant forall j :: 0 <= j < i ==> buckets[j] == Fresh(before.buckets[j], now)
        invariant buckets[i..] == before.buckets[i..]
        invariant forall p :: p in gone <==>
          exists j: nat :: j < i && p in Stale(before.buckets[j], now, STALE_AFTER_MS)
        invariant routingTable == before.flat - gone
      {
        var stale := Stale(buckets[i], now, STALE_AFTER_MS);
        buckets := buckets[i := buckets[i] - stale];
        routingTable := routingTable - stale;
        gone := gone + stale;
      }
      assert gone == StaleInBuckets(before, now);
      assert buckets == Optimized(before, now).buckets;
    }

    method GetAllPeers() returns (peers: seq<string>)
      requires Placed(View(), selfId)
      ensures Distinct(peers) && (set p | p in peers) == InBuckets(View())
    {
      hide BucketId;
      peers := [];
      for i := 0 to BUCKETS
        invariant Distinct(peers)
        invariant forall p :: p in peers <==> p in InBuckets(View()) && BucketId(selfId, p) < i
      {
        var todo := buckets[i].Keys;
        while todo != {}
          invariant todo <= buckets[i].Keys && Distinct(peers)
          invariant forall p :: p in peers <==> p !in todo && p in InBuckets(View()) && BucketId(selfId, p) <= i
          decreases |todo|
        {
          var p :| p in todo;
          assert p !in peers;
          peers := peers + [p];
          todo := todo - {p};
        }
      }
    }

    // None where two ids of different lengths meet: their XOR is an error.
    method FindClosestPeers(target: string, count: nat) returns (closest: Option<seq<string>>)
      requires Placed(View(), selfId)
      ensures closest == None <==> exists p :: p in InBuckets(View()) && !Comparable(p, target)
      ensures closest.Some? ==> Closest(closest.value, InBuckets(View()), target, count)
    {
      hide BucketId, Distance, Closest, Ordered;
      var peers := GetAllPeers();
      for i := 0 to |peers|
        invariant forall j :: 0 <= j < i ==> Comparable(peers[j], target)
      {
        if !Comparable(peers[i], target) {
          assert peers[i] in InBuckets(View());
          return None;
        }
      }
      var sorted := Sorted(peers, target);
      DistinctCount(peers);
      closest := Some(sorted[..if count < |sorted| then count else |sorted|]);
      TakeClosest(sorted, peers, InBuckets(View()), target, count);
    }
  }

  predicate Distinct(s: seq<string>) {
    forall i, j :: 0 <= i < j < |s| ==> s[i] != s[j]
  }

  predicate Comparable(p: string, target: string) {
    |Decode(p)| == |Decode(target)|
  }

  function Distance(p: string, target: string): nat
    requires Comparable(p, target)
  {
    Number(Xor(Decode(p), Decode(target)))
  }

  predicate Ordered(s: seq<string>, target: string) {
    && (forall p :: p in s ==> Comparable(p, target))
    && forall i, j :: 0 <= i < j < |s| ==> Distance(s[i], target) <= Distance(s[j], target)
  }

  // As many of the peers as there are or as asked for, the nearest ones, nearest first.
  ghost predicate Closest(s: seq<string>, peers: set<string>, target: string, count: nat) {
    && Distinct(s) && Ordered(s, target)
    && |s| == (if count < |peers| then count else |peers|)
    && (forall p :: p in s ==> p in peers)
    && forall p, q :: p in s && q in peers && q !in s ==> Comparable(q, target) && Distance(p, target) <= Distance(q, target)
  }

  lemma {:induction false} DistinctCount(s: seq<string>)
    requires Distinct(s)
    ensures |set p | p in s| == |s|
  {
    if s != [] {
      var front, last := s[..|s| - 1], s[|s| - 1];
      DistinctCount(front);
      assert (set p | p in s) == (set p | p in front) + {last};
    }
  }

  lemma TakeClosest(sorted: seq<string>, peers: seq<string>, table: set<string>, target: string, count: nat)
    requires Distinct(sorted) && Ordered(sorted, target) && |sorted| == |peers| == |table|
    requires forall p :: p in sorted <==> p in table
    ensures Closest(sorted[..if count < |sorted| then count else |sorted|], table, target, count)
  {
    hide Distance, Comparable;
  }

  method Sorted(peers: seq<string>, target: string) returns (sorted: seq<string>)
    requires Distinct(peers) && forall i :: 0 <= i < |peers| ==> Comparable(peers[i], target)
    ensures |sorted| == |peers| && Distinct(sorted) && Ordered(sorted, target)
    ensures forall p :: p in sorted <==> p in peers
  {
    hide Distance, Comparable;
    sorted := [];
    for i := 0 to |peers|
      invariant |sorted| == i && Distinct(sorted) && Ordered(sorted, target)
      invariant forall p :: p in sorted <==> p in peers[..i]
    {
      assert peers[i] !in peers[..i];
      sorted := Insert(sorted, peers[i], target);
    }
    assert peers[..|peers|] == peers;
  }

  // Behind the peers that are no farther than it.
  method Insert(s: seq<string>, p: string, target: string) returns (r: seq<string>)
    requires Distinct(s) && Ordered(s, target) && p !in s && Comparable(p, target)
    ensures |r| == |s| + 1 && Distinct(r) && Ordered(r, target)
    ensures forall q :: q in r <==> q in s || q == p
  {
    hide Decode, Number;
    var k := |s|;
    while k > 0
      invariant 0 <= k <= |s|
      invariant forall j :: k <= j < |s| ==> Distance(p, target) < Distance(s[j], target)
    {
      assert Comparable(s[k - 1], target);
      var c := CompareBytes(Xor(Decode(s[k - 1]), Decode(target)), Xor(Decode(p), Decode(target)));
      if c <= 0 {
        break;
      }
      k := k - 1;
    }
    r := s[..k] + [p] + s[k..];
    InsertedAt(s, p, target, k, r);
  }

  lemma InsertedAt(s: seq<string>, p: string, target: string, k: nat, r: seq<string>)
    requires Distinct(s) && Ordered(s, target) && p !in s && Comparable(p, target)
    requires k <= |s| && r == s[..k] + [p] + s[k..]
    requires k > 0 ==> Distance(s[k - 1], target) <= Distance(p, target)
    requires k < |s| ==> Distance(p, target) <= Distance(s[k], target)
    ensures Distinct(r) && Ordered(r, target)
    ensures forall q :: q in r <==> q in s || q == p
  {
    hide Distance, Comparable;
    InsertedIs(s, p, k);
    assert forall q :: q in r ==> Comparable(q, target);
    assert forall i, j :: 0 <= i < j < |r| ==> Distance(r[i], target) <= Distance(r[j], target);
  }

  lemma InsertedIs<T>(s: seq<T>, x: T, k: nat)
    requires k <= |s|
    ensures forall y :: y in s[..k] + [x] + s[k..] <==> y in s || y == x
    ensures forall j :: 0 <= j < k ==> (s[..k] + [x] + s[k..])[j] == s[j]
    ensures (s[..k] + [x] + s[k..])[k] == x
    ensures forall j :: k < j <= |s| ==> (s[..k] + [x] + s[k..])[j] == s[j - 1]
  {
    assert s == s[..k] + s[k..];
    forall y ensures y in s[..k] + [x] + s[k..] <==> y in s || y == x {
      assert y in s <==> y in s[..k] || y in s[k..];
    }
  }

  lemma WithoutNobody(t: Tables)
    ensures Without(t, {}) == t
  {
    assert forall i :: 0 <= i < |t.buckets| ==> t.buckets[i] - {} == t.buckets[i];
    assert Without(t, {}).buckets == t.buckets;
  }

  lemma WithoutTwice(t: Tables, a: set<string>, b: set<string>)
    ensures Without(Without(t, a), b) == Without(t, a + b)
  {
    assert forall m: map<string, Entry> :: m - a - b == m - (a + b);
    assert Without(Without(t, a), b).buckets == Without(t, a + b).buckets;
  }
}
