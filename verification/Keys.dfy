/** dht/key.go: 160-bit keys read as big-endian numbers, the XOR metric and the bucket index it induces. */
module Keys {
  import opened Bits

  const KEY_BYTES: nat := 20
  const KEY_BITS: nat := 160

  type byte = b: int | 0 <= b < 256

  type Bytes = seq<byte>

  /** DHTKey and its alias NodeId: exactly twenty bytes. */
  type KeyBytes = bs: Bytes | |bs| == KEY_BYTES witness [0, 0, 0, 0, 0, 0, 0, 0, 0, 0, 0, 0, 0, 0, 0, 0, 0, 0, 0, 0]

  datatype Key = Key(bytes: KeyBytes)

  /** big.Int.SetBytes: the big-endian number a byte sequence spells. */
  function Value(bs: Bytes): nat {
    if bs == [] then 0 else 256 * Value(bs[..|bs| - 1]) + bs[|bs| - 1]
  }

  function GetKeyDistance(a: Key, b: Key): nat {
    Xor(Value(a.bytes), Value(b.bytes))
  }

  lemma BitLenOfDistance(a: Key, b: Key)
    ensures BitLen(GetKeyDistance(a, b)) <= KEY_BITS
  {
    DistanceBound(a, b);
  }

  /** RoutingTable.bucketIndex: the bit length of the distance, less one; 0 when the distance is 0. */
  function BucketIndex(owner: Key, target: Key): (i: nat)
    ensures i < KEY_BITS
  {
    var bits := BitLen(GetKeyDistance(owner, target));
    BitLenOfDistance(owner, target);
    if bits == 0 then 0 else bits - 1
  }

  /** The number of low bits in which a and b may differ: they share the other leading bits. */
  function Gap(a: Key, b: Key): nat {
    BitLen(GetKeyDistance(a, b))
  }

  // ---- Byte strings as numbers ----

  lemma {:induction false} ValueBound(bs: Bytes)
    ensures Value(bs) < Pow2(8 * |bs|)
  {
    if bs != [] {
      ValueBound(bs[..|bs| - 1]);
      Pow2Byte(8 * (|bs| - 1));
    }
  }

  lemma Pow2Byte(n: nat)
    ensures Pow2(n + 8) == 256 * Pow2(n)
  {
    assert Pow2(n + 8) == 4 * Pow2(n + 6) == 16 * Pow2(n + 4) == 64 * Pow2(n + 2);
  }

  function XorBytes(a: Bytes, b: Bytes): (r: Bytes)
    requires |a| == |b|
    ensures |r| == |a| && forall i :: 0 <= i < |r| ==> r[i] == Xor(a[i], b[i])
  {
    seq(|a|, i requires 0 <= i < |a| => XorByte(a[i], b[i]))
  }

  function XorByte(x: byte, y: byte): byte {
    XorBound(x, y, 8);
    Xor(x, y)
  }

  /** The distance is the number spelled by the bytewise exclusive or. */
  lemma {:induction false} ValueOfXor(a: Bytes, b: Bytes)
    requires |a| == |b|
    ensures Value(XorBytes(a, b)) == Xor(Value(a), Value(b))
  {
    if a != [] {
      var n := |a| - 1;
      ValueOfXor(a[..n], b[..n]);
      assert XorBytes(a, b)[..n] == XorBytes(a[..n], b[..n]);
      XorSplit(Value(a[..n]), Value(b[..n]), a[n], b[n], 8);
      ShlByte(Value(a[..n]));
      ShlByte(Value(b[..n]));
      ShlByte(Xor(Value(a[..n]), Value(b[..n])));
    }
  }

  lemma ShlByte(n: nat)
    ensures Shl(n, 8) == 256 * n
  {
    assert Shl(n, 1) == 2 * n;
    assert Shl(n, 3) == 2 * Shl(n, 2) == 4 * Shl(n, 1);
    assert Shl(n, 5) == 2 * Shl(n, 4) == 4 * Shl(n, 3);
    assert Shl(n, 7) == 2 * Shl(n, 6) == 4 * Shl(n, 5);
  }

  /** Byte strings of one length compared at their first difference. */
  ghost predicate LexLess(a: Bytes, b: Bytes)
    requires |a| == |b|
  {
    exists i :: 0 <= i < |a| && a[..i] == b[..i] && a[i] < b[i]
  }

  /** The comparison is decided by the front parts unless they are equal. */
  lemma LexLessSnoc(a: Bytes, b: Bytes)
    requires |a| == |b| > 0
    ensures var n := |a| - 1;
      LexLess(a, b) <==> LexLess(a[..n], b[..n]) || (a[..n] == b[..n] && a[n] < b[n])
  {
    var n := |a| - 1;
    var p, q := a[..n], b[..n];
    if LexLess(a, b) {
      var i :| 0 <= i < |a| && a[..i] == b[..i] && a[i] < b[i];
      if i < n {
        assert p[..i] == a[..i] && q[..i] == b[..i];
      }
    }
    if LexLess(p, q) {
      var i :| 0 <= i < n && p[..i] == q[..i] && p[i] < q[i];
      assert a[..i] == p[..i] && b[..i] == q[..i];
    }
  }

  lemma {:induction false} ValueOrder(a: Bytes, b: Bytes)
    requires |a| == |b|
    ensures Value(a) < Value(b) <==> LexLess(a, b)
    ensures Value(a) == Value(b) <==> a == b
  {
    if a != [] {
      var n := |a| - 1;
      ValueOrder(a[..n], b[..n]);
      LexLessSnoc(a, b);
      assert a == a[..n] + [a[n]] && b == b[..n] + [b[n]];
    }
  }

  // ---- The XOR metric on keys ----

  lemma DistanceBound(a: Key, b: Key)
    ensures GetKeyDistance(a, b) < Pow2(KEY_BITS) && Gap(a, b) <= KEY_BITS
  {
    ValueBound(a.bytes);
    ValueBound(b.bytes);
    XorBound(Value(a.bytes), Value(b.bytes), KEY_BITS);
    BitLenBound(GetKeyDistance(a, b), KEY_BITS);
  }

  /** GetKeyDistance is a metric: symmetric, zero exactly on equal keys, with the triangle inequality. */
  lemma DistanceIsMetric(a: Key, b: Key, c: Key)
    ensures GetKeyDistance(a, b) == GetKeyDistance(b, a)
    ensures GetKeyDistance(a, b) == 0 <==> a == b
    ensures GetKeyDistance(a, c) <= GetKeyDistance(a, b) + GetKeyDistance(b, c)
  {
    XorComm(Value(a.bytes), Value(b.bytes));
    XorComm(Value(c.bytes), Value(b.bytes));
    XorSelf(Value(a.bytes));
    if GetKeyDistance(a, b) == 0 {
      XorIsZero(Value(a.bytes), Value(b.bytes));
      ValueOrder(a.bytes, b.bytes);
    }
    XorRebase(Value(a.bytes), Value(c.bytes), Value(b.bytes));
    XorAtMostSum(GetKeyDistance(a, b), GetKeyDistance(c, b));
  }

  /** No two keys are equally far from a target. */
  lemma DistanceInjective(a: Key, b: Key, target: Key)
    ensures GetKeyDistance(a, target) == GetKeyDistance(b, target) <==> a == b
  {
    if GetKeyDistance(a, target) == GetKeyDistance(b, target) {
      XorRebase(Value(a.bytes), Value(b.bytes), Value(target.bytes));
      XorSelf(GetKeyDistance(a, target));
      DistanceIsMetric(a, b, b);
    }
  }

  /** Comparing two distances compares the XORed bytes lexicographically. */
  lemma DistanceOrder(a: Key, b: Key, target: Key)
    ensures GetKeyDistance(a, target) < GetKeyDistance(b, target)
       <==> LexLess(XorBytes(a.bytes, target.bytes), XorBytes(b.bytes, target.bytes))
    ensures GetKeyDistance(a, target) == Value(XorBytes(a.bytes, target.bytes))
  {
    ValueOfXor(a.bytes, target.bytes);
    ValueOfXor(b.bytes, target.bytes);
    ValueOrder(XorBytes(a.bytes, target.bytes), XorBytes(b.bytes, target.bytes));
  }

  /** a and b share all but their lowest n bits exactly when their distances to any target do. */
  lemma GapFromTarget(a: Key, b: Key, target: Key, n: nat)
    ensures Gap(a, b) <= n <==> Shr(GetKeyDistance(a, target), n) == Shr(GetKeyDistance(b, target), n)
  {
    XorRebase(Value(a.bytes), Value(b.bytes), Value(target.bytes));
    AgreeAbove(GetKeyDistance(a, target), GetKeyDistance(b, target), n);
  }

  /** Whatever lies between x and z, in distance to a target, shares with x the bits that x and z share. */
  lemma GapBetween(x: Key, y: Key, z: Key, target: Key)
    requires GetKeyDistance(x, target) <= GetKeyDistance(y, target) <= GetKeyDistance(z, target)
    ensures Gap(x, y) <= Gap(x, z)
  {
    var n := Gap(x, z);
    GapFromTarget(x, z, target, n);
    GapFromTarget(x, y, target, n);
    ShrMonotone(GetKeyDistance(x, target), GetKeyDistance(y, target), n);
    ShrMonotone(GetKeyDistance(y, target), GetKeyDistance(z, target), n);
  }

  lemma GapSymmetric(a: Key, b: Key)
    ensures Gap(a, b) == Gap(b, a)
    ensures Gap(a, b) == 0 <==> a == b
  {
    DistanceIsMetric(a, b, a);
  }

  /** Of three keys no gap exceeds both others. */
  lemma GapUltrametric(a: Key, b: Key, c: Key)
    ensures Gap(a, c) <= if Gap(a, b) < Gap(b, c) then Gap(b, c) else Gap(a, b)
  {
    var n := if Gap(a, b) < Gap(b, c) then Gap(b, c) else Gap(a, b);
    GapFromTarget(a, b, a, n);
    GapFromTarget(b, c, a, n);
    GapFromTarget(a, c, a, n);
  }

  /** Two keys that leave c at the same bit agree on that bit and on every bit above it. */
  lemma SameBucketGap(c: Key, x: Key, y: Key)
    requires x != c && y != c && Gap(c, x) == Gap(c, y)
    ensures Gap(x, y) < Gap(c, x)
  {
    var n := Gap(c, x);
    GapSymmetric(c, x);
    GapFromTarget(c, x, c, n);
    GapFromTarget(c, y, c, n);
    GapFromTarget(c, x, c, n - 1);
    GapFromTarget(c, y, c, n - 1);
    GapFromTarget(x, y, c, n - 1);
    ShrStep(GetKeyDistance(c, c), n - 1);
    ShrStep(GetKeyDistance(x, c), n - 1);
    ShrStep(GetKeyDistance(y, c), n - 1);
  }

  /** A key that shares more bits with x than c does is on the same side of c as x, seen from any target. */
  lemma SameSide(c: Key, x: Key, y: Key, target: Key)
    requires GetKeyDistance(x, target) < GetKeyDistance(c, target)
    requires Gap(x, y) < Gap(c, x)
    ensures GetKeyDistance(y, target) < GetKeyDistance(c, target)
  {
    if GetKeyDistance(c, target) <= GetKeyDistance(y, target) {
      GapBetween(x, c, y, target);
      GapSymmetric(c, x);
    }
  }

  // ---- The bucket index ----

  function BitAt(v: nat, m: nat): nat {
    Shr(v, m) % 2
  }

  /** The bit of weight 2^m of a key. */
  function KeyBit(k: Key, m: nat): nat {
    BitAt(Value(k.bytes), m)
  }

  lemma {:induction false} ShrEqualBits(a: nat, b: nat, n: nat, top: nat)
    requires n <= top && Shr(a, top) == Shr(b, top)
    ensures Shr(a, n) == Shr(b, n) <==> forall m :: n <= m < top ==> BitAt(a, m) == BitAt(b, m)
    decreases top - n
  {
    if n < top {
      ShrEqualBits(a, b, n + 1, top);
      ShrStep(a, n);
      ShrStep(b, n);
      assert BitAt(a, n) == Shr(a, n) % 2 && BitAt(b, n) == Shr(b, n) % 2;
    }
  }

  /** Reading from the most significant bit, a and b agree on the first count bits. */
  ghost predicate ShareLeadingBits(a: Key, b: Key, count: nat)
    requires count <= KEY_BITS
  {
    forall m :: KEY_BITS - count <= m < KEY_BITS ==> KeyBit(a, m) == KeyBit(b, m)
  }

  lemma ShrOfKey(k: Key)
    ensures Shr(Value(k.bytes), KEY_BITS) == 0
  {
    ValueBound(k.bytes);
    BitLenBound(Value(k.bytes), KEY_BITS);
    BitLenAtMost(Value(k.bytes), KEY_BITS);
  }

  lemma GapIsSharedPrefix(a: Key, b: Key, n: nat)
    requires n <= KEY_BITS
    ensures Gap(a, b) <= n <==> ShareLeadingBits(a, b, KEY_BITS - n)
  {
    AgreeAbove(Value(a.bytes), Value(b.bytes), n);
    ShrOfKey(a);
    ShrOfKey(b);
    ShrEqualBits(Value(a.bytes), Value(b.bytes), n, KEY_BITS);
    assert forall m :: KeyBit(a, m) == BitAt(Value(a.bytes), m) && KeyBit(b, m) == BitAt(Value(b.bytes), m);
  }

  /** bucketIndex is i exactly when the keys share 159 - i leading bits and no more: 2^i <= distance < 2^(i+1). */
  lemma BucketIndexIsSharedPrefix(owner: Key, target: Key, i: nat)
    requires owner != target && i < KEY_BITS
    ensures BucketIndex(owner, target) == i <==> Pow2(i) <= GetKeyDistance(owner, target) < Pow2(i + 1)
    ensures BucketIndex(owner, target) == i
      <==>
      ShareLeadingBits(owner, target, KEY_BITS - 1 - i)
      && KeyBit(owner, i) != KeyBit(target, i)
  {
    GapSymmetric(owner, target);
    DistanceBound(owner, target);
    BitLenBound(GetKeyDistance(owner, target), i);
    BitLenBound(GetKeyDistance(owner, target), i + 1);
    GapIsSharedPrefix(owner, target, i);
    GapIsSharedPrefix(owner, target, i + 1);
  }
}
