/** dht/routing_table.go as values: the buckets, the two locked sections of Add, and what FindClosest may return. */
module Tables {
  import opened Keys
  import opened Options

  const K: nat := 20

  datatype NetworkNode = NetworkNode(id: Key, address: Bytes, port: int, meta: map<string, string>)

  /** Least recently seen first. */
  type Bucket = seq<NetworkNode>

  type Buckets = bs: seq<Bucket> | |bs| == KEY_BITS witness seq(KEY_BITS, i => [])

  datatype Table = Table(owner: Key, buckets: Buckets)

  /** An Add that found its bucket full and is pinging the entry it saw at the head. */
  datatype Pending = Pending(candidate: NetworkNode, victim: NetworkNode)

  /** What one locked section does: bucket idx loses the entry at position at, if there is one, and gains node. */
  datatype Effect = Nothing | Touch(idx: nat, at: nat, node: NetworkNode)

  // ---- Buckets ----

  /** The first position holding id, or the length. */
  function IndexOf(b: Bucket, id: Key): (i: nat)
    ensures i <= |b|
    ensures i < |b| ==> b[i].id == id
    ensures forall j :: 0 <= j < i ==> b[j].id != id
  {
    if b == [] || b[0].id == id then 0 else 1 + IndexOf(b[1..], id)
  }

  predicate Holds(b: Bucket, id: Key) {
    IndexOf(b, id) < |b|
  }

  function Put<T>(s: seq<T>, at: nat, x: T): seq<T> {
    if at < |s| then s[..at] + s[at + 1..] + [x] else s + [x]
  }

  /** Where a position of Put(s, at, x) was before, or |s| for the new last one. */
  function Origin(len: nat, at: nat, j: nat): nat {
    if at < len then if j < at then j else if j < len - 1 then j + 1 else len
    else j
  }

  lemma PutAt<T>(s: seq<T>, at: nat, x: T)
    ensures |Put(s, at, x)| == if at < |s| then |s| else |s| + 1
    ensures forall j :: 0 <= j < |Put(s, at, x)| ==>
      Put(s, at, x)[j] == if Origin(|s|, at, j) < |s| then s[Origin(|s|, at, j)] else x
  {
  }

  // ---- The two locked sections of Add ----

  function BeginEffect(t: Table, node: NetworkNode): Effect {
    var idx := BucketIndex(t.owner, node.id);
    var b := t.buckets[idx];
    if t.owner != node.id && (Holds(b, node.id) || |b| < K) then Touch(idx, IndexOf(b, node.id), node) else Nothing
  }

  /** Set exactly when Add releases the lock to ping. */
  function BeginPending(t: Table, node: NetworkNode): Option<Pending> {
    var b := t.buckets[BucketIndex(t.owner, node.id)];
    if t.owner != node.id && !Holds(b, node.id) && |b| >= K then Some(Pending(node, b[0])) else None
  }

  function FinishEffect(t: Table, p: Pending, alive: bool): Effect {
    var idx := BucketIndex(t.owner, p.candidate.id);
    var b := t.buckets[idx];
    if Holds(b, p.victim.id) then Touch(idx, IndexOf(b, p.victim.id), if alive then p.victim else p.candidate)
    else Nothing
  }

  function Apply(t: Table, effect: Effect): Table {
    match effect
    case Nothing => t
    case Touch(idx, at, node) =>
      if idx < KEY_BITS then t.(buckets := t.buckets[idx := Put(t.buckets[idx], at, node)]) else t
  }

  /** Add run to its end before anything else touches the table. */
  function AddSerially(t: Table, node: NetworkNode, alive: bool): Table {
    match BeginPending(t, node)
    case None => Apply(t, BeginEffect(t, node))
    case Some(p) => Apply(t, FinishEffect(t, p, alive))
  }

  // ---- Invariants ----

  ghost predicate BucketInv(owner: Key, i: nat, b: Bucket) {
    |b| <= K && forall j :: 0 <= j < |b| ==> b[j].id != owner && BucketIndex(owner, b[j].id) == i
  }

  ghost predicate TableInv(t: Table) {
    forall i :: 0 <= i < KEY_BITS ==> BucketInv(t.owner, i, t.buckets[i])
  }

  ghost predicate PendingInv(owner: Key, p: Pending) {
    p.candidate.id != owner && p.victim.id != owner
    && BucketIndex(owner, p.victim.id) == BucketIndex(owner, p.candidate.id)
  }

  ghost predicate UniqueBucket(b: Bucket) {
    forall j, k :: 0 <= j < k < |b| ==> b[j].id != b[k].id
  }

  ghost predicate Unique(t: Table) {
    forall i :: 0 <= i < KEY_BITS ==> UniqueBucket(t.buckets[i])
  }

  ghost predicate HasId(t: Table, id: Key) {
    Holds(t.buckets[BucketIndex(t.owner, id)], id)
  }

  /** No bucket is filled to the brim with copies of id. */
  ghost predicate NotFlooded(t: Table, id: Key) {
    var b := t.buckets[BucketIndex(t.owner, id)];
    |b| < K || exists j :: 0 <= j < |b| && b[j].id != id
  }

  /** No bucket has become shorter. */
  ghost predicate Grown(t: Table, t': Table) {
    t'.owner == t.owner && forall i :: 0 <= i < KEY_BITS ==> |t.buckets[i]| <= |t'.buckets[i]|
  }

  // ---- What FindClosest may return ----

  function Flatten(bs: seq<Bucket>): seq<NetworkNode> {
    if bs == [] then [] else Flatten(bs[..|bs| - 1]) + bs[|bs| - 1]
  }

  function Entries(t: Table): seq<NetworkNode> {
    Flatten(t.buckets)
  }

  ghost predicate Ascending(s: seq<NetworkNode>, target: Key) {
    forall i, j :: 0 <= i < j < |s| ==> GetKeyDistance(s[i].id, target) <= GetKeyDistance(s[j].id, target)
  }

  function Min(a: nat, b: nat): nat {
    if a < b then a else b
  }

  /** r is the front of the entries sorted by distance; entries at equal distance stand in any order. */
  ghost predicate IsFindClosest(entries: seq<NetworkNode>, target: Key, count: nat, r: seq<NetworkNode>) {
    exists sorted :: SortOf(entries, target, sorted) && r == sorted[..Min(count, |sorted|)]
  }

  ghost predicate SortOf(s: seq<NetworkNode>, target: Key, sorted: seq<NetworkNode>) {
    multiset(sorted) == multiset(s) && Ascending(sorted, target)
  }

  /** No two entries carry the same ID. */
  ghost predicate DistinctIds(m: multiset<NetworkNode>) {
    (forall x :: x in m ==> m[x] == 1) && (forall x, y :: x in m && y in m && x.id == y.id ==> x == y)
  }

  // ---- Membership of a flattened table ----

  lemma {:induction false} FlattenMember(bs: seq<Bucket>, e: NetworkNode)
    ensures e in Flatten(bs) <==> exists i :: 0 <= i < |bs| && e in bs[i]
  {
    if bs != [] {
      var n := |bs| - 1;
      FlattenMember(bs[..n], e);
      if e in Flatten(bs[..n]) {
        var i :| 0 <= i < n && e in bs[..n][i];
        assert e in bs[i];
      }
      if exists i :: 0 <= i < |bs| && e in bs[i] {
        var i :| 0 <= i < |bs| && e in bs[i];
        assert i < n ==> e in bs[..n][i];
      }
    }
  }

  /** The entries of a table are exactly those of its buckets, each in the bucket of its ID. */
  lemma EntryBucket(t: Table, e: NetworkNode)
    requires TableInv(t)
    ensures e in Entries(t) <==> e in t.buckets[BucketIndex(t.owner, e.id)]
    ensures e in Entries(t) ==> e.id != t.owner
  {
    FlattenMember(t.buckets, e);
    if e in Entries(t) {
      var i :| 0 <= i < KEY_BITS && e in t.buckets[i];
      assert BucketInv(t.owner, i, t.buckets[i]);
    }
  }

  lemma DistinctUnion(m: multiset<NetworkNode>, n: multiset<NetworkNode>)
    requires DistinctIds(m) && DistinctIds(n)
    requires forall x, y :: x in m && y in n ==> x.id != y.id
    ensures DistinctIds(m + n)
  {
    forall x | x in m + n
      ensures (m + n)[x] == 1
    {
      assert (m + n)[x] == m[x] + n[x];
      assert x in m && x in n ==> x.id != x.id;
    }
  }

  lemma BucketsShareNoId(owner: Key, bs: seq<Bucket>, x: NetworkNode, y: NetworkNode)
    requires bs != [] && forall i :: 0 <= i < |bs| ==> BucketInv(owner, i, bs[i])
    requires x in Flatten(bs[..|bs| - 1]) && y in bs[|bs| - 1]
    ensures x.id != y.id
  {
    var n := |bs| - 1;
    FlattenMember(bs[..n], x);
    var i :| 0 <= i < n && x in bs[..n][i];
    assert BucketInv(owner, i, bs[i]) && BucketInv(owner, n, bs[n]);
  }

  lemma {:induction false} FlattenDistinct(owner: Key, bs: seq<Bucket>)
    requires forall i :: 0 <= i < |bs| ==> BucketInv(owner, i, bs[i]) && UniqueBucket(bs[i])
    ensures DistinctIds(multiset(Flatten(bs)))
  {
    if bs == [] {
      EmptyIsDistinct();
    } else {
      var n := |bs| - 1;
      var p, b := Flatten(bs[..n]), bs[n];
      FlattenDistinct(owner, bs[..n]);
      forall x, y | x in p && y in b
        ensures x.id != y.id
      {
        BucketsShareNoId(owner, bs, x, y);
      }
      UniqueIsDistinct(b);
      DistinctUnion(multiset(p), multiset(b));
      assert multiset(Flatten(bs)) == multiset(p) + multiset(b);
    }
  }

  lemma EmptyIsDistinct()
    ensures DistinctIds(multiset{})
  {
  }

  lemma {:induction false} UniqueIsDistinct(b: Bucket)
    requires UniqueBucket(b)
    ensures DistinctIds(multiset(b))
  {
    if b == [] {
      EmptyIsDistinct();
    } else {
      var n := |b| - 1;
      UniqueIsDistinct(b[..n]);
      OneIsDistinct(b[n]);
      DistinctUnion(multiset(b[..n]), multiset{b[n]});
      assert b == b[..n] + [b[n]];
    }
  }

  lemma OneIsDistinct(x: NetworkNode)
    ensures DistinctIds(multiset{x})
  {
  }
}
