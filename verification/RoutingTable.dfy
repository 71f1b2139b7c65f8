/** dht/routing_table.go as the object it is: buckets rewritten in place by the two locked sections of Add. */
module RoutingTables {
  import opened Keys
  import opened Options
  import opened Tables
  import opened Adds
  import opened AddHistory

  function InsertAt(s: seq<NetworkNode>, at: nat, x: NetworkNode): (r: seq<NetworkNode>)
    requires at <= |s|
    ensures |r| == |s| + 1
    ensures forall i :: 0 <= i < |r| ==> r[i] == if i < at then s[i] else if i == at then x else s[i - 1]
  {
    s[..at] + [x] + s[at..]
  }

  lemma InsertAscending(s: seq<NetworkNode>, at: nat, x: NetworkNode, target: Key)
    requires at <= |s| && Ascending(s, target)
    requires forall i :: 0 <= i < at ==> GetKeyDistance(s[i].id, target) <= GetKeyDistance(x.id, target)
    requires at < |s| ==> GetKeyDistance(x.id, target) <= GetKeyDistance(s[at].id, target)
    ensures Ascending(InsertAt(s, at, x), target)
  {
    var r := InsertAt(s, at, x);
    forall i, j | 0 <= i < j < |r|
      ensures GetKeyDistance(r[i].id, target) <= GetKeyDistance(r[j].id, target)
    {
      if j < at || at < i {
        var i', j' := if i < at then i else i - 1, if j < at then j else j - 1;
        assert r[i] == s[i'] && r[j] == s[j'];
      } else if i < at && at < j {
        assert r[i] == s[i] && r[j] == s[j - 1] && i < j - 1 < |s|;
      } else if i == at && at < j - 1 {
        assert r[j] == s[j - 1] && at < j - 1 < |s|;
      }
    }
  }

  lemma InsertMultiset(s: seq<NetworkNode>, at: nat, x: NetworkNode)
    requires at <= |s|
    ensures multiset(InsertAt(s, at, x)) == multiset(s) + multiset{x}
  {
    assert s == s[..at] + s[at..];
  }

  /** The library's sort.Slice, known only by what it promises: a permutation in ascending distance. */
  method SortByDistance(nodes: seq<NetworkNode>, target: Key) returns (sorted: seq<NetworkNode>)
    ensures SortOf(nodes, target, sorted)
  {
    sorted := [];
    for n := 0 to |nodes|
      invariant SortOf(nodes[..n], target, sorted)
    {
      var x := nodes[n];
      var at := FindPlace(sorted, x, target);
      InsertAscending(sorted, at, x, target);
      InsertMultiset(sorted, at, x);
      sorted := InsertAt(sorted, at, x);
      MultisetSnoc(nodes, n);
    }
    assert nodes[..|nodes|] == nodes;
  }

  lemma MultisetSnoc<T>(s: seq<T>, n: nat)
    requires n < |s|
    ensures multiset(s[..n + 1]) == multiset(s[..n]) + multiset{s[n]}
  {
    assert s[..n + 1] == s[..n] + [s[n]];
  }

  method FindPlace(sorted: seq<NetworkNode>, x: NetworkNode, target: Key) returns (at: nat)
    ensures at <= |sorted|
    ensures forall i :: 0 <= i < at ==> GetKeyDistance(sorted[i].id, target) <= GetKeyDistance(x.id, target)
    ensures at < |sorted| ==> GetKeyDistance(x.id, target) < GetKeyDistance(sorted[at].id, target)
  {
    at := 0;
    while at < |sorted| && GetKeyDistance(sorted[at].id, target) <= GetKeyDistance(x.id, target)
      invariant at <= |sorted|
      invariant forall i :: 0 <= i < at ==> GetKeyDistance(sorted[i].id, target) <= GetKeyDistance(x.id, target)
    {
      at := at + 1;
    }
  }

  class RoutingTable {
    const nodeId: Key
    const buckets: array<Bucket>
    var hasPing: bool

    ghost predicate Valid()
      reads this, buckets
    {
      buckets.Length == KEY_BITS && TableInv(View())
    }

    ghost function View(): Table
      reads this, buckets
      requires buckets.Length == KEY_BITS
    {
      Table(nodeId, buckets[..])
    }

    constructor (id: Key)
      ensures Valid() && fresh(buckets) && !hasPing
      ensures View() == Initial(id).table && nodeId == id
      ensures forall i :: 0 <= i < KEY_BITS ==> buckets[i] == []
    {
      nodeId := id;
      buckets := new Bucket[KEY_BITS](i => []);
      hasPing := false;
    }

    /** Whether a ping function is installed; its answers are inputs of Add. */
    method SetPing(present: bool)
      modifies this`hasPing
      ensures hasPing == present
    {
      hasPing := present;
    }

    /** The first locked section. A result means the lock was released to ping its victim. */
    method BeginAdd(node: NetworkNode) returns (pending: Option<Pending>)
      requires Valid()
      modifies buckets
      ensures Valid()
      ensures View() == Apply(old(View()), BeginEffect(old(View()), node))
      ensures pending == BeginPending(old(View()), node)
      ensures pending.Some? ==> PendingInv(nodeId, pending.value)
    {
      ghost var t := View();
      EffectIsGood(State(t, map[]), Begin(0, node));
      ApplyKeepsInv(t, BeginEffect(t, node));
      if nodeId == node.id {
        return None;
      }
      var idx := BucketIndex(nodeId, node.id);
      var bucket := buckets[idx];
      assert bucket == t.buckets[idx] && BucketInv(nodeId, idx, bucket);
      var i := Scan(bucket, node.id);
      if i < |bucket| {
        buckets[idx] := bucket[..i] + bucket[i + 1..] + [node];
        assert buckets[..] == t.buckets[idx := buckets[idx]];
        return None;
      }
      if |bucket| < K {
        buckets[idx] := bucket + [node];
        assert buckets[..] == t.buckets[idx := buckets[idx]];
        return None;
      }
      return Some(Pending(node, bucket[0]));
    }

    /** The second locked section; the bucket is read again, for it may have changed during the ping. */
    method FinishAdd(p: Pending, alive: bool)
      requires Valid() && PendingInv(nodeId, p)
      modifies buckets
      ensures Valid()
      ensures View() == Apply(old(View()), FinishEffect(old(View()), p, alive))
    {
      ghost var t := View();
      EffectIsGood(State(t, map[0 := p]), Finish(0, alive));
      ApplyKeepsInv(t, FinishEffect(t, p, alive));
      var idx := BucketIndex(nodeId, p.candidate.id);
      var b := buckets[idx];
      assert b == t.buckets[idx];
      var i := Scan(b, p.victim.id);
      if i < |b| {
        buckets[idx] := b[..i] + b[i + 1..] + [if alive then p.victim else p.candidate];
        assert buckets[..] == t.buckets[idx := buckets[idx]];
      }
    }

    /** Add with nothing in between; pong is what the ping function, if there is one, answers. */
    method Add(node: NetworkNode, pong: bool)
      requires Valid()
      modifies buckets
      ensures Valid() && View() == AddSerially(old(View()), node, hasPing && pong)
      ensures Grown(old(View()), View())
    {
      SerialAddKeepsInv(View(), node, hasPing && pong);
      var pending := BeginAdd(node);
      match pending
      case None =>
      case Some(p) =>
        assert View() == old(View());
        FinishAdd(p, hasPing && pong);
    }

    /** Every entry of every bucket, sorted, and the front of that. */
    method FindClosest(target: Key, count: nat) returns (result: seq<NetworkNode>)
      requires Valid()
      ensures IsFindClosest(Entries(View()), target, count, result)
    {
      var all: seq<NetworkNode> := [];
      for i := 0 to buckets.Length
        invariant all == Flatten(buckets[..i])
      {
        var bucket := buckets[i];
        for j := 0 to |bucket|
          invariant all == Flatten(buckets[..i]) + bucket[..j]
        {
          all := all + [bucket[j]];
        }
        assert buckets[..i + 1][..i] == buckets[..i] && bucket[..|bucket|] == bucket;
      }
      assert buckets[..buckets.Length] == buckets[..];
      var sorted := SortByDistance(all, target);
      result := [];
      var i := 0;
      while i < |sorted| && i < count
        invariant i <= |sorted| && i <= count && result == sorted[..i]
      {
        result := result + [sorted[i]];
        i := i + 1;
      }
    }
  }

  /** The scan both sections make: the first entry with this ID. */
  method Scan(bucket: Bucket, id: Key) returns (i: nat)
    ensures i == IndexOf(bucket, id)
  {
    i := 0;
    while i < |bucket| && bucket[i].id != id
      invariant i <= |bucket| && forall j :: 0 <= j < i ==> bucket[j].id != id
    {
      i := i + 1;
    }
  }
}
