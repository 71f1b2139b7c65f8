/** Lookups converge: on a network of complete routing tables iterativeSearch finds the node closest to its target. */
module Convergence {
  import opened Keys
  import opened Tables
  import opened Search
  import opened SearchRuns
  import opened Adds
  import Closest

  // ---- The network hypothesis ----

  /** Only live nodes are listed, and a bucket is empty only if no live node belongs in it. */
  ghost predicate Complete(net: set<Key>, t: Table) {
    t.owner in net
    && (forall i, j :: 0 <= i < KEY_BITS && 0 <= j < |t.buckets[i]| ==> t.buckets[i][j].id in net)
    && (forall x :: x in net && x != t.owner ==> t.buckets[BucketIndex(t.owner, x)] != [])
  }

  ghost predicate Healthy(net: set<Key>, t: Table) {
    TableInv(t) && Complete(net, t)
  }

  /** Some live node other than self is at least as near the target as self. */
  ghost predicate Outdone(net: set<Key>, self: Key, target: Key) {
    exists x :: x in net && x != self && GetKeyDistance(x, target) <= GetKeyDistance(self, target)
  }

  /** Copies of the searcher do not crowd out what a table has to tell it: its bucket there holds another ID too, or it
      is not itself the nearest to the target. */
  ghost predicate HasRoom(net: set<Key>, self: Key, target: Key, t: Table) {
    NotFlooded(t, self) || Outdone(net, self, target)
  }

  /** An answer some healthy table of the queried node gives; the table may have changed since any earlier answer. */
  ghost predicate Honest(net: set<Key>, self: Key, target: Key, n: NetworkNode, a: Answer) {
    a.Nodes?
    && exists t: Table :: t.owner == n.id && Healthy(net, t) && HasRoom(net, self, target, t)
                          && IsFindClosest(Entries(t), target, K, a.res)
  }

  ghost predicate HonestRound(net: set<Key>, self: Key, target: Key, s: SearchState, log: RoundLog) {
    |log.answers| == |Queried(s)|
    && forall i :: 0 <= i < |Queried(s)| ==> Honest(net, self, target, Queried(s)[i], log.answers[i])
  }

  ghost predicate HonestRounds(net: set<Key>, self: Key, target: Key, states: seq<SearchState>, logs: seq<RoundLog>) {
    Rounds(self, target, states, logs)
    && forall n :: 0 <= n < |logs| ==> HonestRound(net, self, target, states[n], logs[n])
  }

  /** g is the live node closest to the target, the searcher not counted. */
  ghost predicate IsNearest(net: set<Key>, self: Key, target: Key, g: Key) {
    g in net && g != self
    && forall x :: x in net && x != self ==> GetKeyDistance(g, target) <= GetKeyDistance(x, target)
  }

  lemma NearestIsUnique(net: set<Key>, self: Key, target: Key, g: Key, x: Key)
    requires IsNearest(net, self, target, g) && x in net && x != self
    requires GetKeyDistance(x, target) <= GetKeyDistance(g, target)
    ensures x == g
  {
    DistanceInjective(x, g, target);
  }

  // ---- Add keeps tables complete ----

  lemma EntriesAreLive(net: set<Key>, t: Table, e: NetworkNode)
    requires Healthy(net, t) && e in Entries(t)
    ensures e.id in net && e.id != t.owner && e in t.buckets[BucketIndex(t.owner, e.id)]
  {
    EntryBucket(t, e);
    var b := t.buckets[BucketIndex(t.owner, e.id)];
    var j :| 0 <= j < |b| && b[j] == e;
  }

  ghost predicate LiveContacts(net: set<Key>, s: State) {
    forall tid :: tid in s.pending ==> s.pending[tid].candidate.id in net && s.pending[tid].victim.id in net
  }

  lemma EffectKeepsLive(net: set<Key>, t: Table, effect: Effect)
    requires effect.Touch? ==> effect.node.id in net
    requires forall i, j :: 0 <= i < KEY_BITS && 0 <= j < |t.buckets[i]| ==> t.buckets[i][j].id in net
    ensures var t' := Apply(t, effect);
            forall i, j :: 0 <= i < KEY_BITS && 0 <= j < |t'.buckets[i]| ==> t'.buckets[i][j].id in net
  {
    if effect.Touch? && effect.idx < KEY_BITS {
      PutAt(t.buckets[effect.idx], effect.at, effect.node);
    }
  }

  /** A step of Add that brings in a live contact keeps a complete table complete: no bucket is ever emptied. */
  lemma StepKeepsComplete(net: set<Key>, s: State, e: Event)
    requires Inv(s) && Complete(net, s.table) && LiveContacts(net, s) && Enabled(s, e)
    requires e.Begin? ==> e.node.id in net
    ensures Complete(net, Next(s, e).table) && LiveContacts(net, Next(s, e))
  {
    StepKeepsInv(s, e);
    EffectIsLive(net, s, e);
    EffectKeepsLive(net, s.table, EffectOf(s, e));
    PendingStaysLive(net, s, e);
    GrownKeepsNonEmpty(net, s.table, Next(s, e).table);
  }

  lemma EffectIsLive(net: set<Key>, s: State, e: Event)
    requires LiveContacts(net, s) && Enabled(s, e) && (e.Begin? ==> e.node.id in net)
    ensures EffectOf(s, e).Touch? ==> EffectOf(s, e).node.id in net
  {
  }

  lemma PendingStaysLive(net: set<Key>, s: State, e: Event)
    requires Complete(net, s.table) && LiveContacts(net, s) && Enabled(s, e) && (e.Begin? ==> e.node.id in net)
    ensures LiveContacts(net, Next(s, e))
  {
    var t := s.table;
    assert Next(s, e).pending == PendingAfter(s, e);
    if e.Begin? && BeginPending(t, e.node).Some? {
      assert t.buckets[BucketIndex(t.owner, e.node.id)][0].id in net;
    }
    hide Next, BucketIndex;
  }

  lemma GrownKeepsNonEmpty(net: set<Key>, t: Table, t': Table)
    requires Complete(net, t) && Grown(t, t')
    ensures forall x :: x in net && x != t'.owner ==> t'.buckets[BucketIndex(t'.owner, x)] != []
  {
    hide BucketIndex;
    forall x | x in net && x != t'.owner
      ensures t'.buckets[BucketIndex(t'.owner, x)] != []
    {
      assert |t.buckets[BucketIndex(t.owner, x)]| <= |t'.buckets[BucketIndex(t.owner, x)]|;
    }
  }

  // ---- One honest answer ----

  /** The owner of a complete table has, in its bucket for g, someone who shares more bits with g than it does. */
  lemma NeighbourNearG(net: set<Key>, g: Key, t: Table) returns (z: NetworkNode)
    requires Healthy(net, t) && g in net && g != t.owner
    ensures z in Entries(t) && z.id != t.owner && Gap(z.id, g) < Gap(t.owner, g)
  {
    var i := BucketIndex(t.owner, g);
    var b := t.buckets[i];
    assert b != [] && BucketInv(t.owner, i, b);
    z := b[0];
    assert z in b;
    EntryBucket(t, z);
    GapSymmetric(t.owner, g);
    GapSymmetric(t.owner, z.id);
    SameBucketGap(t.owner, z.id, g);
    SameBucketGap(t.owner, g, z.id);
    GapSymmetric(z.id, g);
  }

  /** Whoever shares more bits with g than c does is nearer to the target than c. */
  lemma NearerThan(net: set<Key>, self: Key, target: Key, g: Key, c: Key, x: Key)
    requires IsNearest(net, self, target, g) && c in net && c != self && c != g
    requires Gap(x, g) < Gap(c, g)
    ensures GetKeyDistance(x, target) < GetKeyDistance(c, target)
  {
    DistanceInjective(g, c, target);
    GapSymmetric(x, g);
    SameSide(c, g, x, target);
  }

  /** Between g and a node that is near g there are only nodes at least as near g. */
  lemma AtLeastAsNearG(net: set<Key>, self: Key, target: Key, g: Key, x: Key, z: Key)
    requires IsNearest(net, self, target, g) && x in net && x != self
    requires GetKeyDistance(x, target) <= GetKeyDistance(z, target)
    ensures Gap(x, g) <= Gap(z, g)
  {
    GapBetween(g, x, z, target);
    GapSymmetric(g, x);
    GapSymmetric(g, z);
  }

  /** If nobody in a list but the searcher is as near as z, and the searcher is outdone, it shares no fewer bits with g
      than z does. */
  lemma OutdoneIsNoNearer(net: set<Key>, self: Key, target: Key, g: Key, res: seq<NetworkNode>, z: NetworkNode)
    requires Outdone(net, self, target) && IsNearest(net, self, target, g) && res != []
    requires forall y :: y in res ==> GetKeyDistance(y.id, target) <= GetKeyDistance(z.id, target)
    requires Gap(z.id, g) < Gap(self, g)
    ensures exists y :: y in res && y.id != self
  {
    if forall y :: y in res ==> y.id == self {
      assert res[0] in res;
      var x :| x in net && x != self && GetKeyDistance(x, target) <= GetKeyDistance(self, target);
      GapBetween(g, self, z.id, target);
      GapSymmetric(g, self);
      GapSymmetric(g, z.id);
    }
  }

  /** The answer of c names, besides the searcher, a node sharing more bits with g than c does. */
  lemma AnswerImproves(net: set<Key>, self: Key, target: Key, g: Key, t: Table, res: seq<NetworkNode>, z: NetworkNode)
    returns (y: NetworkNode)
    requires Healthy(net, t) && HasRoom(net, self, target, t) && IsNearest(net, self, target, g) && self != t.owner
    requires Gap(t.owner, g) <= Gap(self, g) && IsFindClosest(Entries(t), target, K, res)
    requires z in Entries(t) && z.id != self && Gap(z.id, g) < Gap(t.owner, g)
    ensures y in res && y.id != self && Gap(y.id, g) < Gap(t.owner, g)
  {
    Closest.FindClosestMembers(Entries(t), target, K, res, z);
    if z in res {
      y := z;
    } else {
      Closest.FindClosestIsBest(Entries(t), target, K, res);
      if !NotFlooded(t, self) {
        OutdoneIsNoNearer(net, self, target, g, res, z);
      } else {
        AnswerHasOther(t, res, self);
      }
      y :| y in res && y.id != self;
      Closest.FindClosestMembers(Entries(t), target, K, res, y);
      EntriesAreLive(net, t, y);
      AtLeastAsNearG(net, self, target, g, y.id, z.id);
    }
  }

  /** A table flooded with the searcher names another node only if that node is at least as near the target. */
  lemma NamedOutdoes(net: set<Key>, self: Key, target: Key, t: Table, res: seq<NetworkNode>, y: NetworkNode)
    requires Healthy(net, t) && self != t.owner && !NotFlooded(t, self)
    requires IsFindClosest(Entries(t), target, K, res) && y in res && y.id != self
    ensures Outdone(net, self, target)
  {
    var i := BucketIndex(t.owner, self);
    var b := t.buckets[i];
    Closest.FindClosestIsBest(Entries(t), target, K, res);
    Closest.FlattenHasBucket(t.buckets, i);
    Closest.FindClosestMembers(Entries(t), target, K, res, y);
    EntriesAreLive(net, t, y);
    assert y !in b;
    var copy := Closest.MissedEntry(b, Entries(t), res, y);
    assert copy.id == self;
  }

  /** A table without room tells the searcher nothing: it names the searcher and nobody else. */
  lemma NoRoomNoAnswer(net: set<Key>, self: Key, target: Key, t: Table, res: seq<NetworkNode>)
    requires Healthy(net, t) && self != t.owner && !HasRoom(net, self, target, t)
    requires IsFindClosest(Entries(t), target, K, res)
    ensures forall y :: y in res ==> y.id == self
  {
    forall y | y in res
      ensures y.id == self
    {
      if y.id != self {
        NamedOutdoes(net, self, target, t, res, y);
      }
    }
  }

  /** A queried node that is not nearer g than the searcher names someone nearer g than itself exactly when its table
      has room. */
  lemma AnswerImprovesIff(net: set<Key>, self: Key, target: Key, g: Key, t: Table, res: seq<NetworkNode>)
    requires Healthy(net, t) && IsNearest(net, self, target, g) && self != t.owner && g != t.owner
    requires Gap(t.owner, g) <= Gap(self, g) && IsFindClosest(Entries(t), target, K, res)
    ensures HasRoom(net, self, target, t) <==> exists y :: y in res && y.id != self && Gap(y.id, g) < Gap(t.owner, g)
  {
    if HasRoom(net, self, target, t) {
      var z := NeighbourNearG(net, g, t);
      var y := AnswerImproves(net, self, target, g, t, res, z);
    } else {
      NoRoomNoAnswer(net, self, target, t, res);
    }
  }

  /** All copies of an entry stand in the bucket of its ID. */
  lemma {:induction false} CopiesInBucket(owner: Key, bs: seq<Bucket>, x: NetworkNode)
    requires forall i :: 0 <= i < |bs| ==> BucketInv(owner, i, bs[i])
    ensures var i := BucketIndex(owner, x.id);
            multiset(Flatten(bs))[x] == if i < |bs| then multiset(bs[i])[x] else 0
  {
    if bs != [] {
      var n := |bs| - 1;
      OtherBucketLacks(owner, n, bs[n], x);
      CopiesSnoc(bs, x);
      hide BucketIndex, BucketInv, Flatten;
      CopiesInBucket(owner, bs[..n], x);
    }
  }

  lemma CopiesSnoc(bs: seq<Bucket>, x: NetworkNode)
    requires bs != []
    ensures multiset(Flatten(bs))[x] == multiset(Flatten(bs[..|bs| - 1]))[x] + multiset(bs[|bs| - 1])[x]
  {
    assert multiset(Flatten(bs)) == multiset(Flatten(bs[..|bs| - 1])) + multiset(bs[|bs| - 1]);
  }

  lemma OtherBucketLacks(owner: Key, i: nat, b: Bucket, x: NetworkNode)
    requires BucketInv(owner, i, b)
    ensures BucketIndex(owner, x.id) != i ==> multiset(b)[x] == 0
  {
    assert x in b ==> BucketIndex(owner, x.id) == i;
  }

  /** A full answer of a table that is not flooded with the searcher names someone else. */
  lemma AnswerHasOther(t: Table, res: seq<NetworkNode>, self: Key)
    requires TableInv(t) && NotFlooded(t, self) && multiset(res) <= multiset(Entries(t)) && |res| == K
    ensures exists y :: y in res && y.id != self
  {
    var i := BucketIndex(t.owner, self);
    var b := t.buckets[i];
    assert BucketInv(t.owner, i, b);
    if forall y :: y in res ==> y.id == self {
      forall x | x in multiset(res)
        ensures multiset(res)[x] <= multiset(b)[x]
      {
        assert x in res;
        CopiesInBucket(t.owner, t.buckets, x);
      }
      FullOfOne(res, b, self);
    }
  }

  lemma FullOfOne(res: seq<NetworkNode>, b: Bucket, id: Key)
    requires |res| == K && |b| <= K && multiset(res) <= multiset(b) && forall y :: y in res ==> y.id == id
    ensures |b| == K && forall j :: 0 <= j < |b| ==> b[j].id == id
  {
    Closest.SubsetSize(multiset(res), multiset(b));
    assert |multiset(res)| == |res| && |multiset(b)| == |b|;
    Closest.SameSizeSubset(multiset(res), multiset(b));
    forall j | 0 <= j < |b|
      ensures b[j].id == id
    {
      assert b[j] in multiset(b);
    }
  }

  // ---- One honest round ----

  /** What the head of the list satisfies at the start of every round. */
  ghost predicate HeadInv(net: set<Key>, own: Table, target: Key, g: Key, s: SearchState) {
    SearchInv(own.owner, target, s)
    && (forall n :: n in s.closest ==> n.id in net)
    && (forall e :: e in Entries(own) ==> GetKeyDistance(s.closest[0].id, target) <= GetKeyDistance(e.id, target))
    && (forall v :: v in s.visited ==> GetKeyDistance(s.closest[0].id, target) <= GetKeyDistance(v, target))
    && (s.closest[0].id in s.visited ==> s.closest[0].id == g)
  }

  /** The head, asked while it is not yet g, names a better node that the round is sure to keep. */
  lemma HeadIsImproved(net: set<Key>, own: Table, target: Key, g: Key, s: SearchState, log: RoundLog)
    returns (y: NetworkNode)
    requires Healthy(net, own) && IsNearest(net, own.owner, target, g) && HeadInv(net, own, target, g, s)
    requires GoodRound(own.owner, target, s, log) && HonestRound(net, own.owner, target, s, log)
    requires s.closest[0].id != g
    ensures y in log.merged && Gap(y.id, g) < Gap(s.closest[0].id, g)
    ensures GetKeyDistance(y.id, target) < GetKeyDistance(s.closest[0].id, target)
  {
    var self, c := own.owner, s.closest[0];
    var q := Queried(s);
    assert c in s.closest;
    assert q[0] == c && Honest(net, self, target, q[0], log.answers[0]);
    var t: Table :| t.owner == c.id && Healthy(net, t) && HasRoom(net, self, target, t)
                    && IsFindClosest(Entries(t), target, K, log.answers[0].res);
    var z := NeighbourNearG(net, g, t);
    SearcherIsFarther(net, own, target, g, s);
    y := AnswerImproves(net, self, target, g, t, log.answers[0].res, z);
    NearerThan(net, self, target, g, c.id, y.id);
    assert forall n :: n in q ==> n in s.closest;
    assert y.id !in Ids(s.closest) by {
      NoEntryIsNearer(self, target, s, y.id);
    }
    NamedIsGathered(self, target, s, log, 0, y);
    MergedMembers(self, target, s, log, y);
  }

  lemma NoEntryIsNearer(self: Key, target: Key, s: SearchState, id: Key)
    requires SearchInv(self, target, s) && GetKeyDistance(id, target) < GetKeyDistance(s.closest[0].id, target)
    ensures id !in Ids(s.closest)
  {
    if id in Ids(s.closest) {
      CoveredIsNoNearer(self, target, s, id);
    }
  }

  /** The searcher shares no more bits with g than the head does, or its own table would have named a better head. */
  lemma SearcherIsFarther(net: set<Key>, own: Table, target: Key, g: Key, s: SearchState)
    requires Healthy(net, own) && IsNearest(net, own.owner, target, g) && HeadInv(net, own, target, g, s)
    requires s.closest[0].id != g
    ensures Gap(s.closest[0].id, g) <= Gap(own.owner, g)
  {
    var c := s.closest[0];
    assert c in s.closest;
    if Gap(own.owner, g) < Gap(c.id, g) {
      var z := NeighbourNearG(net, g, own);
      NearerThan(net, own.owner, target, g, c.id, z.id);
    }
  }

  lemma MergedHead(self: Key, target: Key, s: SearchState, log: RoundLog, n: NetworkNode)
    requires GoodRound(self, target, s, log) && n in log.merged
    ensures Advance(s, log).closest != []
    ensures GetKeyDistance(Advance(s, log).closest[0].id, target) <= GetKeyDistance(n.id, target)
    ensures Advance(s, log).closest[0] in log.merged
  {
    var i :| 0 <= i < |log.merged| && log.merged[i] == n;
  }

  lemma MergedIsLive(net: set<Key>, self: Key, target: Key, s: SearchState, log: RoundLog, n: NetworkNode)
    requires GoodRound(self, target, s, log) && HonestRound(net, self, target, s, log) && n in log.merged
    requires forall m :: m in s.closest ==> m.id in net
    ensures n.id in net
  {
    MergedMembers(self, target, s, log, n);
    if n !in s.closest {
      GatheredIsNamed(self, target, s, log, n);
      var i :| 0 <= i < |log.answers| && log.answers[i].Nodes? && n in log.answers[i].res;
      assert Honest(net, self, target, Queried(s)[i], log.answers[i]);
      var t: Table :| Healthy(net, t) && IsFindClosest(Entries(t), target, K, log.answers[i].res);
      Closest.FindClosestMembers(Entries(t), target, K, log.answers[i].res, n);
      EntriesAreLive(net, t, n);
    }
  }

  /** Each round halves, at least, the region around g in which the head lies, until the head is g and stays g. */
  lemma RoundConverges(net: set<Key>, own: Table, target: Key, g: Key, s: SearchState, log: RoundLog)
    requires Healthy(net, own) && IsNearest(net, own.owner, target, g) && HeadInv(net, own, target, g, s)
    requires GoodRound(own.owner, target, s, log) && HonestRound(net, own.owner, target, s, log)
    ensures HeadInv(net, own, target, g, Advance(s, log))
    ensures if s.closest[0].id == g then Advance(s, log).closest[0].id == g
            else Gap(Advance(s, log).closest[0].id, g) < Gap(s.closest[0].id, g)
  {
    var self, c, s' := own.owner, s.closest[0], Advance(s, log);
    RoundKeepsInv(self, target, s, log);
    assert c in s.closest;
    MergedMembers(self, target, s, log, c);
    MergedHead(self, target, s, log, c);
    forall n | n in s'.closest
      ensures n.id in net
    {
      assert n in log.merged;
      MergedIsLive(net, self, target, s, log, n);
    }
    var c' := s'.closest[0];
    assert c' in s'.closest;
    forall v | v in s'.visited
      ensures GetKeyDistance(c.id, target) <= GetKeyDistance(v, target)
    {
      if v !in s.visited {
        var n :| n in Queried(s) && n.id == v;
        assert v in Ids(s.closest);
        CoveredIsNoNearer(self, target, s, v);
      }
    }
    if c.id == g {
      NearestIsUnique(net, self, target, g, c'.id);
    } else {
      var y := HeadIsImproved(net, own, target, g, s, log);
      MergedHead(self, target, s, log, y);
      AtLeastAsNearG(net, self, target, g, c'.id, y.id);
    }
  }

  // ---- The whole search ----

  lemma SeedHeadInv(net: set<Key>, own: Table, target: Key, g: Key, s: SearchState)
    requires Healthy(net, own) && Seeded(own, target, s)
    ensures HeadInv(net, own, target, g, s)
  {
    SeedKeepsInv(own, target, s);
    var r :| IsFindClosest(Entries(own), target, K, r) && s.closest == WithoutId(r, own.owner);
    Closest.FindClosestIsBest(Entries(own), target, K, r);
    forall n | n in r
      ensures n in s.closest && n.id in net
    {
      Closest.FindClosestMembers(Entries(own), target, K, r, n);
      EntriesAreLive(net, own, n);
    }
    forall e | e in Entries(own)
      ensures GetKeyDistance(s.closest[0].id, target) <= GetKeyDistance(e.id, target)
    {
      assert s.closest[0] in s.closest;
      Closest.FindClosestMembers(Entries(own), target, K, r, e);
      if e in r {
        assert e.id in Ids(s.closest);
        CoveredIsNoNearer(own.owner, target, s, e.id);
      }
    }
  }

  /** Round by round: after n rounds the head is g, or it shares at least n bits more with g than it did at first. */
  lemma {:induction false} SearchConverges(net: set<Key>, own: Table, target: Key, g: Key,
                                           states: seq<SearchState>, logs: seq<RoundLog>, n: nat)
    requires Healthy(net, own) && IsNearest(net, own.owner, target, g)
    requires HonestRounds(net, own.owner, target, states, logs) && Seeded(own, target, states[0]) && n <= |logs|
    ensures HeadInv(net, own, target, g, states[n])
    ensures states[0].closest != [] && states[n].closest != []
    ensures states[n].closest[0].id == g || Gap(states[n].closest[0].id, g) + n <= Gap(states[0].closest[0].id, g)
    decreases n
  {
    if n == 0 {
      SeedHeadInv(net, own, target, g, states[0]);
    } else {
      SearchConverges(net, own, target, g, states, logs, n - 1);
      RoundConverges(net, own, target, g, states[n - 1], logs[n - 1]);
    }
  }

  /** Within Gap(initial head, g), at most 160, rounds the head is g; it stays g; and a search that stops has
      found g. */
  lemma SearchFindsNearest(net: set<Key>, own: Table, target: Key, g: Key, states: seq<SearchState>,
                           logs: seq<RoundLog>, n: nat)
    requires Healthy(net, own) && IsNearest(net, own.owner, target, g)
    requires HonestRounds(net, own.owner, target, states, logs) && Seeded(own, target, states[0]) && n <= |logs|
    ensures states[0].closest != [] && states[n].closest != []
    ensures Gap(states[0].closest[0].id, g) <= KEY_BITS
    ensures n >= Gap(states[0].closest[0].id, g) ==> states[n].closest[0].id == g
    ensures forall m :: 0 <= m <= n && states[m].closest != [] && states[m].closest[0].id == g ==>
                          states[n].closest[0].id == g
    ensures Queried(states[n]) == [] ==> states[n].closest[0].id == g && g in states[n].visited
  {
    SearchConverges(net, own, target, g, states, logs, n);
    DistanceBound(states[0].closest[0].id, g);
    GapSymmetric(states[n].closest[0].id, g);
    forall m | 0 <= m <= n && states[m].closest != [] && states[m].closest[0].id == g
      ensures states[n].closest[0].id == g
    {
      HeadStays(net, own, target, g, states, logs, m, n);
    }
  }

  lemma HeadStaysOneRound(net: set<Key>, own: Table, target: Key, g: Key, states: seq<SearchState>,
                          logs: seq<RoundLog>, n: nat)
    requires Healthy(net, own) && IsNearest(net, own.owner, target, g)
    requires HonestRounds(net, own.owner, target, states, logs) && n < |logs|
    requires HeadInv(net, own, target, g, states[n]) && states[n].closest[0].id == g
    ensures states[n + 1].closest != [] && states[n + 1].closest[0].id == g
  {
    RoundConverges(net, own, target, g, states[n], logs[n]);
  }

  lemma {:induction false} HeadStays(net: set<Key>, own: Table, target: Key, g: Key,
                                     states: seq<SearchState>, logs: seq<RoundLog>, m: nat, n: nat)
    requires Healthy(net, own) && IsNearest(net, own.owner, target, g)
    requires HonestRounds(net, own.owner, target, states, logs) && Seeded(own, target, states[0]) && m <= n <= |logs|
    requires states[m].closest != [] && states[m].closest[0].id == g
    ensures states[n].closest != [] && states[n].closest[0].id == g
    decreases n
  {
    hide *;
    if m < n {
      HeadStays(net, own, target, g, states, logs, m, n - 1);
      SearchConverges(net, own, target, g, states, logs, n - 1);
      HeadStaysOneRound(net, own, target, g, states, logs, n - 1);
    }
  }

  // ---- What becomes of a search that is told nothing ----

  /** An answer of some healthy table without room. */
  ghost predicate Crowded(net: set<Key>, self: Key, target: Key, n: NetworkNode, a: Answer) {
    a.Nodes?
    && exists t: Table :: t.owner == n.id && Healthy(net, t) && !HasRoom(net, self, target, t)
                          && IsFindClosest(Entries(t), target, K, a.res)
  }

  ghost predicate CrowdedRound(net: set<Key>, self: Key, target: Key, s: SearchState, log: RoundLog) {
    |log.answers| == |Queried(s)|
    && forall i :: 0 <= i < |Queried(s)| ==> Crowded(net, self, target, Queried(s)[i], log.answers[i])
  }

  lemma CrowdedRoundNamesNobody(net: set<Key>, self: Key, target: Key, s: SearchState, log: RoundLog)
    requires SearchInv(self, target, s) && GoodRound(self, target, s, log) && CrowdedRound(net, self, target, s, log)
    ensures Named(self, log) == {}
  {
    forall i, r | 0 <= i < |log.answers| && log.answers[i].Nodes? && r in log.answers[i].res
      ensures r.id == self
    {
      var n := Queried(s)[i];
      assert n in Queried(s);
      assert Crowded(net, self, target, n, log.answers[i]);
      var t: Table :| t.owner == n.id && Healthy(net, t) && !HasRoom(net, self, target, t)
                      && IsFindClosest(Entries(t), target, K, log.answers[i].res);
      NoRoomNoAnswer(net, self, target, t, log.answers[i].res);
    }
  }

  lemma UnnamedRoundLearnsNobody(self: Key, target: Key, s: SearchState, log: RoundLog)
    requires SearchInv(self, target, s) && GoodRound(self, target, s, log) && Named(self, log) == {}
    ensures Ids(Advance(s, log).closest) <= Ids(s.closest)
  {
    forall e | e in Advance(s, log).closest
      ensures e.id in Ids(s.closest)
    {
      assert e in log.merged;
      MergedMembers(self, target, s, log, e);
      if e !in s.closest {
        GatheredIsNamed(self, target, s, log, e);
      }
    }
  }

  lemma SeedsAreListed(own: Table, target: Key, s: SearchState)
    requires TableInv(own) && Seeded(own, target, s)
    ensures Ids(s.closest) <= Ids(Entries(own))
  {
    var r :| IsFindClosest(Entries(own), target, K, r) && s.closest == WithoutId(r, own.owner);
    forall e | e in s.closest
      ensures e in Entries(own)
    {
      Closest.FindClosestMembers(Entries(own), target, K, r, e);
    }
  }

  /** If no queried table has room, the search learns nobody, however long it goes on: unless its own table listed g
      to begin with, g is never in the list. */
  lemma {:induction false} CrowdedSearchFails(net: set<Key>, own: Table, target: Key, states: seq<SearchState>,
                                              logs: seq<RoundLog>, n: nat)
    requires Healthy(net, own) && Rounds(own.owner, target, states, logs) && Seeded(own, target, states[0])
    requires forall k :: 0 <= k < |logs| ==> CrowdedRound(net, own.owner, target, states[k], logs[k])
    requires n <= |logs|
    ensures SearchInv(own.owner, target, states[n]) && Ids(states[n].closest) <= Ids(Entries(own))
    decreases n
  {
    hide GoodRound, Seeded, Advance, Complete, CrowdedRound, SearchInv, Ids, Entries;
    if n == 0 {
      SeedKeepsInv(own, target, states[0]);
      SeedsAreListed(own, target, states[0]);
    } else {
      CrowdedSearchFails(net, own, target, states, logs, n - 1);
      assert GoodRound(own.owner, target, states[n - 1], logs[n - 1]);
      assert states[n] == Advance(states[n - 1], logs[n - 1]);
      CrowdedRoundNamesNobody(net, own.owner, target, states[n - 1], logs[n - 1]);
      RoundKeepsInv(own.owner, target, states[n - 1], logs[n - 1]);
      UnnamedRoundLearnsNobody(own.owner, target, states[n - 1], logs[n - 1]);
    }
  }
}
