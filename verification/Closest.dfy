/** What a caller may rely on from FindClosest, whatever order the buckets are scanned and ties are sorted in. */
module Closest {
  import opened Bits
  import opened Keys
  import opened Tables

  ghost predicate NoFarther(near: multiset<NetworkNode>, far: multiset<NetworkNode>, target: Key) {
    forall x, y :: x in near && y in far ==> GetKeyDistance(x.id, target) <= GetKeyDistance(y.id, target)
  }

  ghost predicate Nearer(near: multiset<NetworkNode>, far: multiset<NetworkNode>, target: Key) {
    forall x, y :: x in near && y in far ==> GetKeyDistance(x.id, target) < GetKeyDistance(y.id, target)
  }

  lemma AscendingSplit(s: seq<NetworkNode>, n: nat, target: Key)
    requires Ascending(s, target) && n <= |s|
    ensures Ascending(s[..n], target) && NoFarther(multiset(s[..n]), multiset(s[n..]), target)
  {
    forall x, y | x in s[..n] && y in s[n..]
      ensures GetKeyDistance(x.id, target) <= GetKeyDistance(y.id, target)
    {
      var i :| 0 <= i < n && s[i] == x;
      var j :| n <= j < |s| && s[j] == y;
    }
  }

  lemma SameMultisetSameLength<T>(s: seq<T>, t: seq<T>)
    requires multiset(s) == multiset(t)
    ensures |s| == |t|
  {
    assert |s| == |multiset(s)| == |multiset(t)| == |t|;
  }

  lemma MultisetSplit<T>(s: seq<T>, n: nat)
    requires n <= |s|
    ensures multiset(s[..n]) <= multiset(s)
    ensures multiset(s) - multiset(s[..n]) == multiset(s[n..])
  {
    assert s == s[..n] + s[n..];
    assert multiset(s) == multiset(s[..n]) + multiset(s[n..]);
  }

  /** Exactly min(count, total) entries, nearest first, taken with multiplicity, and nothing omitted is nearer. */
  lemma FindClosestIsBest(entries: seq<NetworkNode>, target: Key, count: nat, r: seq<NetworkNode>)
    requires IsFindClosest(entries, target, count, r)
    ensures |r| == Min(count, |entries|) && Ascending(r, target)
    ensures multiset(r) <= multiset(entries)
    ensures NoFarther(multiset(r), multiset(entries) - multiset(r), target)
  {
    var sorted :| SortOf(entries, target, sorted) && r == sorted[..Min(count, |sorted|)];
    SameMultisetSameLength(sorted, entries);
    AscendingSplit(sorted, |r|, target);
    MultisetSplit(sorted, |r|);
  }

  lemma SameSizeSubset<T>(a: multiset<T>, b: multiset<T>)
    requires a <= b && |a| == |b|
    ensures a == b
  {
    assert b == a + (b - a);
    assert |b - a| == 0;
  }

  /** Membership form: an entry is returned unless count others, none of them farther, are. */
  lemma FindClosestMembers(entries: seq<NetworkNode>, target: Key, count: nat, r: seq<NetworkNode>, e: NetworkNode)
    requires IsFindClosest(entries, target, count, r)
    ensures e in r ==> e in entries
    ensures e in entries && e !in r ==>
              |r| == count && forall x :: x in r ==> GetKeyDistance(x.id, target) <= GetKeyDistance(e.id, target)
  {
    FindClosestIsBest(entries, target, count, r);
    assert e in multiset(r) <==> e in r;
    assert e in multiset(entries) <==> e in entries;
    if |r| == |entries| {
      SameSizeSubset(multiset(r), multiset(entries));
    }
    if e in entries && e !in r {
      assert e in multiset(entries) - multiset(r);
      assert forall x :: x in r <==> x in multiset(r);
    }
  }

  lemma DistinctDistances(m: multiset<NetworkNode>, x: NetworkNode, y: NetworkNode, target: Key)
    requires DistinctIds(m) && x in m && y in m
    requires GetKeyDistance(x.id, target) == GetKeyDistance(y.id, target)
    ensures x == y
  {
    DistanceInjective(x.id, y.id, target);
  }

  lemma SortedHead(s1: seq<NetworkNode>, s2: seq<NetworkNode>, target: Key)
    requires multiset(s1) == multiset(s2) && DistinctIds(multiset(s1)) && s1 != [] && s2 != []
    requires Ascending(s1, target) && Ascending(s2, target)
    ensures s1[0] == s2[0]
  {
    var x, y := s1[0], s2[0];
    assert x in multiset(s2) && y in multiset(s1);
    var i :| 0 <= i < |s2| && s2[i] == x;
    var j :| 0 <= j < |s1| && s1[j] == y;
    DistinctDistances(multiset(s1), x, y, target);
  }

  lemma TailDistinct(m: multiset<NetworkNode>, n: multiset<NetworkNode>)
    requires DistinctIds(m) && n <= m
    ensures DistinctIds(n)
  {
    forall x | x in n
      ensures n[x] == 1 && x in m
    {
      assert n[x] <= m[x];
    }
  }

  lemma SortedTails(s1: seq<NetworkNode>, s2: seq<NetworkNode>)
    requires multiset(s1) == multiset(s2) && DistinctIds(multiset(s1)) && s1 != [] && s2 != []
    requires s1[0] == s2[0]
    ensures multiset(s1[1..]) == multiset(s2[1..]) && DistinctIds(multiset(s1[1..]))
  {
    MultisetSplit(s1, 1);
    MultisetSplit(s2, 1);
    assert s1[..1] == s2[..1];
    TailDistinct(multiset(s1), multiset(s1[1..]));
  }

  lemma AscendingTail(s: seq<NetworkNode>, target: Key)
    requires Ascending(s, target) && s != []
    ensures Ascending(s[1..], target)
  {
  }

  lemma EqualFromTails<T>(s: seq<T>, t: seq<T>)
    requires s != [] && t != [] && s[0] == t[0] && s[1..] == t[1..]
    ensures s == t
  {
    assert s == [s[0]] + s[1..] && t == [t[0]] + t[1..];
  }

  lemma {:induction false} SortIsUnique(s1: seq<NetworkNode>, s2: seq<NetworkNode>, target: Key)
    requires multiset(s1) == multiset(s2) && DistinctIds(multiset(s1))
    requires Ascending(s1, target) && Ascending(s2, target)
    ensures s1 == s2
  {
    SameMultisetSameLength(s1, s2);
    if s1 == [] {
    } else {
      SortedHead(s1, s2, target);
      SortedTails(s1, s2);
      AscendingTail(s1, target);
      AscendingTail(s2, target);
      SortIsUnique(s1[1..], s2[1..], target);
      EqualFromTails(s1, s2);
    }
  }

  /** With unique IDs neither the order of the scan nor the unstable sort shows in the result. */
  lemma FindClosestIsCanonical(e1: seq<NetworkNode>, e2: seq<NetworkNode>, target: Key, count: nat,
                               r1: seq<NetworkNode>, r2: seq<NetworkNode>)
    requires multiset(e1) == multiset(e2) && DistinctIds(multiset(e1))
    requires IsFindClosest(e1, target, count, r1) && IsFindClosest(e2, target, count, r2)
    ensures r1 == r2
    ensures Nearer(multiset(r1), multiset(e1) - multiset(r1), target)
  {
    var s1 :| SortOf(e1, target, s1) && r1 == s1[..Min(count, |s1|)];
    var s2 :| SortOf(e2, target, s2) && r2 == s2[..Min(count, |s2|)];
    SortIsUnique(s1, s2, target);
    FindClosestIsBest(e1, target, count, r1);
    var m, n := multiset(e1), multiset(r1);
    forall x, y | x in n && y in m - n
      ensures GetKeyDistance(x.id, target) < GetKeyDistance(y.id, target)
    {
      assert x in m && y in m && m[x] == 1 && n[x] >= 1;
      assert x !in m - n;
      if GetKeyDistance(x.id, target) == GetKeyDistance(y.id, target) {
        DistinctDistances(m, x, y, target);
      }
    }
  }

  /** Asking for the one node closest to id answers with id exactly when the table holds it, as FetchBlob relies on. */
  lemma FindClosestOne(entries: seq<NetworkNode>, id: Key, r: seq<NetworkNode>)
    requires IsFindClosest(entries, id, 1, r)
    ensures (r != [] && r[0].id == id) <==> exists e :: e in entries && e.id == id
  {
    FindClosestIsBest(entries, id, 1, r);
    if r != [] {
      assert r[0] in multiset(r);
      assert r[0] in entries;
    }
    if e :| e in entries && e.id == id {
      FindClosestMembers(entries, id, 1, r, e);
      DistanceIsMetric(id, id, id);
      if e in r {
        assert r[0] == e;
      } else {
        assert r[0] in r;
        DistanceIsMetric(r[0].id, id, id);
      }
    }
  }

  /** Entries of the target's own bucket are within 2^i of it; all others are at least 2^i away. */
  lemma BucketRadius(owner: Key, target: Key, e: Key)
    requires target != owner && e != owner
    ensures var i := BucketIndex(owner, target);
      BucketIndex(owner, e) == i <==> GetKeyDistance(e, target) < Pow2(i)
  {
    var i := BucketIndex(owner, target);
    BitLenBound(GetKeyDistance(e, target), i);
    GapSymmetric(owner, target);
    GapSymmetric(owner, e);
    GapSymmetric(e, target);
    if BucketIndex(owner, e) == i {
      SameBucketGap(owner, e, target);
    } else {
      GapUltrametric(owner, e, target);
      GapUltrametric(owner, target, e);
    }
  }

  lemma {:induction false} FlattenHasBucket(bs: seq<Bucket>, i: nat)
    requires i < |bs|
    ensures multiset(bs[i]) <= multiset(Flatten(bs))
  {
    var n := |bs| - 1;
    assert multiset(Flatten(bs)) == multiset(Flatten(bs[..n])) + multiset(bs[n]);
    if i < n {
      FlattenHasBucket(bs[..n], i);
    }
  }

  /** If the target's bucket can fill the answer, the answer comes from that bucket alone. */
  lemma BucketLocality(t: Table, target: Key, count: nat, r: seq<NetworkNode>)
    requires TableInv(t) && target != t.owner
    requires |t.buckets[BucketIndex(t.owner, target)]| >= count
    requires IsFindClosest(Entries(t), target, count, r)
    ensures |r| == count
    ensures forall e :: e in r ==> e in t.buckets[BucketIndex(t.owner, target)]
  {
    var i := BucketIndex(t.owner, target);
    var b := t.buckets[i];
    FindClosestIsBest(Entries(t), target, count, r);
    FlattenHasBucket(t.buckets, i);
    assert |multiset(b)| <= |Entries(t)| by {
      SubsetSize(multiset(b), multiset(Entries(t)));
      assert |multiset(Entries(t))| == |Entries(t)|;
    }
    forall e | e in r
      ensures e in b
    {
      assert e in multiset(r);
      assert e in Entries(t);
      EntryBucket(t, e);
      if BucketIndex(t.owner, e.id) != i {
        BucketRadius(t.owner, target, e.id);
        assert e !in b by {
          assert BucketInv(t.owner, i, b);
        }
        var y := MissedEntry(b, Entries(t), r, e);
        EntryBucket(t, y);
        assert BucketInv(t.owner, i, b);
        BucketRadius(t.owner, target, y.id);
        assert false;
      }
    }
  }

  lemma SubsetSize(a: multiset<NetworkNode>, b: multiset<NetworkNode>)
    requires a <= b
    ensures |a| <= |b|
  {
    assert b == a + (b - a);
  }

  /** A bucket at least as long as the answer, which spends a place on an outsider, has an entry left over. */
  lemma MissedEntry(b: Bucket, entries: seq<NetworkNode>, r: seq<NetworkNode>, outsider: NetworkNode)
    returns (y: NetworkNode)
    requires multiset(b) <= multiset(entries) && multiset(r) <= multiset(entries)
    requires |b| >= |r| && outsider in r && outsider !in b
    ensures y in b && y in multiset(entries) - multiset(r)
  {
    var insiders := multiset(r) - multiset{outsider};
    assert outsider in multiset(r);
    assert multiset(r) == insiders + multiset{outsider};
    assert |insiders| == |r| - 1 && |multiset(b)| == |b|;
    if multiset(b) <= insiders {
      SubsetSize(multiset(b), insiders);
    }
    y :| multiset(b)[y] > insiders[y];
    assert y in multiset(b) && y != outsider;
  }
}
