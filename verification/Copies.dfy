/** How many copies of one ID a bucket can hold when Adds of it overlap, and how many overlapping Adds it takes to
    fill a bucket with one ID. */
module Copies {
  import opened Bits
  import opened Keys
  import opened Options
  import opened Tables
  import opened Adds
  import opened Overlap
  import Closest

  function Count(b: Bucket, id: Key): (n: nat)
    ensures n <= |b|
  {
    if b == [] then 0 else Count(b[..|b| - 1], id) + if b[|b| - 1].id == id then 1 else 0
  }

  lemma {:induction false} CountConcat(a: Bucket, b: Bucket, id: Key)
    ensures Count(a + b, id) == Count(a, id) + Count(b, id)
    decreases |b|
  {
    if b == [] {
      assert a + b == a;
    } else {
      var n := |b| - 1;
      assert (a + b)[..|a| + n] == a + b[..n];
      CountConcat(a, b[..n], id);
    }
  }

  lemma CountOne(x: NetworkNode, id: Key)
    ensures Count([x], id) == if x.id == id then 1 else 0
  {
    assert [x][..0] == [];
    assert Count([], id) == 0;
  }

  lemma CountPut(b: Bucket, at: nat, x: NetworkNode, id: Key)
    ensures Count(Put(b, at, x), id) + (if at < |b| && b[at].id == id then 1 else 0)
         == Count(b, id) + if x.id == id then 1 else 0
  {
    CountOne(x, id);
    if at < |b| {
      assert b == b[..at] + ([b[at]] + b[at + 1..]);
      CountConcat(b[..at], [b[at]] + b[at + 1..], id);
      CountConcat([b[at]], b[at + 1..], id);
      CountOne(b[at], id);
      CountConcat(b[..at] + b[at + 1..], [x], id);
      CountConcat(b[..at], b[at + 1..], id);
    } else {
      CountConcat(b, [x], id);
    }
  }

  /** A bucket counts an ID as often as it is long only if it holds nothing else. */
  lemma {:induction false} CountAll(b: Bucket, id: Key)
    requires forall j :: 0 <= j < |b| ==> b[j].id == id
    ensures Count(b, id) == |b|
  {
    if b != [] {
      CountAll(b[..|b| - 1], id);
    }
  }

  lemma {:induction false} CountUnique(b: Bucket, id: Key)
    requires UniqueBucket(b)
    ensures Count(b, id) <= 1 && (Count(b, id) == 1 <==> exists j :: 0 <= j < |b| && b[j].id == id)
  {
    if b != [] {
      var n := |b| - 1;
      CountUnique(b[..n], id);
      if exists j :: 0 <= j < n && b[..n][j].id == id {
        var j :| 0 <= j < n && b[..n][j].id == id;
        assert b[j].id == id && b[n].id != id;
      }
    }
  }

  lemma {:induction false} CountAbsent(b: Bucket, id: Key)
    requires !Holds(b, id)
    ensures Count(b, id) == 0
    decreases |b|
  {
    if b != [] {
      var n := |b| - 1;
      forall j | 0 <= j < n
        ensures b[..n][j].id != id
      {
        assert b[..n][j] == b[j];
      }
      CountAbsent(b[..n], id);
    }
  }

  /** How often the bucket of id lists it. */
  function CopiesOf(t: Table, id: Key): nat {
    Count(t.buckets[BucketIndex(t.owner, id)], id)
  }

  /** The Adds of id that are waiting for their pings. */
  function Waiting(pending: map<nat, Pending>, id: Key): set<nat> {
    set tid | tid in pending && pending[tid].candidate.id == id
  }

  /** e does not make more than limit Adds of one ID wait at once. */
  predicate WithinLimit(s: State, e: Event, limit: nat) {
    e.Begin? && BeginPending(s.table, e.node).Some? ==> |Waiting(s.pending, e.node.id)| < limit
  }

  /** Adds wait on full buckets only, and even if all that wait for an ID were to store it, another ID would be left in
      its bucket. */
  ghost predicate CopyInv(s: State) {
    (forall tid :: tid in s.pending ==> |BucketOf(s, s.pending[tid].candidate.id)| == K)
    && forall id :: CopiesOf(s.table, id) + |Waiting(s.pending, id)| < K
  }

  lemma CopyInvNotFlooded(s: State, id: Key)
    requires CopyInv(s)
    ensures NotFlooded(s.table, id)
  {
    var b := s.table.buckets[BucketIndex(s.table.owner, id)];
    if forall j :: 0 <= j < |b| ==> b[j].id == id {
      CountAll(b, id);
      assert CopiesOf(s.table, id) == |b|;
    }
  }

  /** Tables of which no two Adds of one ID are waiting, and that list each ID once, satisfy the invariant. */
  lemma UniqueHasCopyInv(s: State)
    requires Inv(s) && Unique(s.table) && s.pending == map[]
    ensures CopyInv(s)
  {
    forall id
      ensures CopiesOf(s.table, id) + |Waiting(s.pending, id)| < K
    {
      assert UniqueBucket(s.table.buckets[BucketIndex(s.table.owner, id)]);
      CountUnique(s.table.buckets[BucketIndex(s.table.owner, id)], id);
      assert Waiting(s.pending, id) == {};
    }
  }

  /** What a step does to the copies of an ID. */
  lemma EffectCopies(t: Table, effect: Effect, id: Key)
    requires TableInv(t) && GoodEffect(t, effect)
    ensures effect == Nothing ==> CopiesOf(Apply(t, effect), id) == CopiesOf(t, id)
    ensures effect.Touch? ==>
      CopiesOf(Apply(t, effect), id) <= CopiesOf(t, id) + if effect.node.id == id then 1 else 0
    ensures effect.Touch? && effect.at < |t.buckets[effect.idx]|
            && t.buckets[effect.idx][effect.at].id == effect.node.id
            ==> CopiesOf(Apply(t, effect), id) == CopiesOf(t, id)
  {
    if effect.Touch? {
      CountPut(t.buckets[effect.idx], effect.at, effect.node, id);
      assert BucketInv(t.owner, effect.idx, t.buckets[effect.idx]);
      if BucketIndex(t.owner, id) == effect.idx {
        assert CopiesOf(Apply(t, effect), id) == Count(Put(t.buckets[effect.idx], effect.at, effect.node), id);
      }
    }
  }

  lemma WaitingInsert(pending: map<nat, Pending>, tid: nat, p: Pending, id: Key)
    requires tid !in pending
    ensures |Waiting(pending[tid := p], id)| == |Waiting(pending, id)| + if p.candidate.id == id then 1 else 0
  {
    var after := Waiting(pending[tid := p], id);
    if p.candidate.id == id {
      assert after == Waiting(pending, id) + {tid};
    } else {
      assert after == Waiting(pending, id);
    }
  }

  lemma WaitingRemove(pending: map<nat, Pending>, tid: nat, id: Key)
    requires tid in pending
    ensures |Waiting(pending - {tid}, id)| == |Waiting(pending, id)| - if pending[tid].candidate.id == id then 1 else 0
  {
    var after := Waiting(pending - {tid}, id);
    if pending[tid].candidate.id == id {
      assert after == Waiting(pending, id) - {tid} && tid in Waiting(pending, id);
    } else {
      assert after == Waiting(pending, id);
    }
  }

  /** While a bucket has room, no Add waits on it. */
  lemma NoneWaitOnRoom(s: State, id: Key)
    requires CopyInv(s) && |BucketOf(s, id)| < K
    ensures Waiting(s.pending, id) == {}
  {
    if tid :| tid in Waiting(s.pending, id) {
      assert |BucketOf(s, s.pending[tid].candidate.id)| == K;
    }
  }

  lemma BeginKeepsCopies(s: State, tid: nat, node: NetworkNode, id: Key)
    requires Inv(s) && CopyInv(s) && tid !in s.pending && WithinLimit(s, Begin(tid, node), K - 1)
    ensures var s' := Next(s, Begin(tid, node)); CopiesOf(s'.table, id) + |Waiting(s'.pending, id)| < K
  {
    var effect, b := BeginEffect(s.table, node), BucketOf(s, node.id);
    EffectIsGood(s, Begin(tid, node));
    EffectCopies(s.table, effect, id);
    if BeginPending(s.table, node).Some? {
      WaitingInsert(s.pending, tid, BeginPending(s.table, node).value, id);
    }
    assert CopiesOf(s.table, id) + |Waiting(s.pending, id)| < K;
    if node.id == id && node.id != s.table.owner && !Holds(b, id) {
      CountAbsent(b, id);
      if |b| < K {
        NoneWaitOnRoom(s, id);
      }
    }
  }

  lemma FinishKeepsCopies(s: State, tid: nat, alive: bool, id: Key)
    requires Inv(s) && CopyInv(s) && tid in s.pending
    ensures var s' := Next(s, Finish(tid, alive)); CopiesOf(s'.table, id) + |Waiting(s'.pending, id)| < K
  {
    EffectIsGood(s, Finish(tid, alive));
    EffectCopies(s.table, FinishEffect(s.table, s.pending[tid], alive), id);
    WaitingRemove(s.pending, tid, id);
    assert PendingInv(s.table.owner, s.pending[tid]);
    assert CopiesOf(s.table, id) + |Waiting(s.pending, id)| < K;
  }

  lemma WaitedOnWasFull(s: State, e: Event, tid: nat)
    requires CopyInv(s) && Enabled(s, e) && tid in PendingAfter(s, e)
    ensures |BucketOf(s, PendingAfter(s, e)[tid].candidate.id)| >= K
  {
    if tid in s.pending {
      assert |BucketOf(s, s.pending[tid].candidate.id)| == K;
    }
  }

  lemma WaitedOnStaysFull(s: State, e: Event, tid: nat)
    requires Inv(s) && CopyInv(s) && Enabled(s, e) && tid in Next(s, e).pending
    ensures |BucketOf(Next(s, e), Next(s, e).pending[tid].candidate.id)| == K
  {
    WaitedOnWasFull(s, e, tid);
    StepKeepsInv(s, e);
    var s' := Next(s, e);
    assert s'.pending == PendingAfter(s, e);
    hide Next, PendingAfter, CopyInv, Enabled;
    var idx := BucketIndex(s.table.owner, s'.pending[tid].candidate.id);
    assert |s.table.buckets[idx]| <= |s'.table.buckets[idx]|;
    assert BucketInv(s'.table.owner, idx, s'.table.buckets[idx]);
  }

  /** With fewer than K Adds of any ID waiting at once, no ID ever fills a bucket. */
  lemma StepKeepsCopyInv(s: State, e: Event)
    requires Inv(s) && CopyInv(s) && Enabled(s, e) && WithinLimit(s, e, K - 1)
    ensures CopyInv(Next(s, e))
  {
    var s' := Next(s, e);
    forall tid | tid in s'.pending
      ensures |BucketOf(s', s'.pending[tid].candidate.id)| == K
    {
      WaitedOnStaysFull(s, e, tid);
    }
    forall id
      ensures CopiesOf(s'.table, id) + |Waiting(s'.pending, id)| < K
    {
      match e
      case Begin(tid, node) => BeginKeepsCopies(s, tid, node, id);
      case Finish(tid, alive) => FinishKeepsCopies(s, tid, alive, id);
    }
  }

  ghost predicate RunWithin(states: seq<State>, events: seq<Event>, limit: nat) {
    Run(states, events) && forall n :: 0 <= n < |events| ==> WithinLimit(states[n], events[n], limit)
  }

  /** Over a whole run: if of no ID K Adds ever wait at once, no ID ever fills a bucket. */
  lemma {:induction false} RunIsNotFlooded(states: seq<State>, events: seq<Event>, n: nat, id: Key)
    requires RunWithin(states, events, K - 1) && Inv(states[0]) && CopyInv(states[0]) && n <= |events|
    ensures CopyInv(states[n]) && NotFlooded(states[n].table, id)
    decreases n
  {
    if n > 0 {
      RunIsNotFlooded(states, events, n - 1, id);
      RunKeepsStateInv(states, events, n - 1);
      StepKeepsCopyInv(states[n - 1], events[n - 1]);
    }
    CopyInvNotFlooded(states[n], id);
  }

  // ---- K waiting Adds are too many ----

  ghost predicate SameBucketIn(s: State, s0: State, x: NetworkNode, c: Bucket) {
    s.table.owner == s0.table.owner && BucketOf(s, x.id) == c
  }

  /** n Adds of x wait, each for another entry of the bucket b; every victim has been refreshed since. */
  ghost predicate Caught(s: State, s0: State, x: NetworkNode, b: Bucket, n: nat) {
    |b| == K && n <= K && SameBucketIn(s, s0, x, b[n..] + b[..n])
    && s.pending == map j: nat | j < n :: Pending(x, b[j])
  }

  /** The first n of K waiting Adds of x have replaced their victims by x. */
  ghost predicate Replaced(s: State, s0: State, x: NetworkNode, b: Bucket, n: nat) {
    |b| == K && n <= K && SameBucketIn(s, s0, x, b[n..] + seq(n, i => x))
    && s.pending == map j: nat | n <= j < K :: Pending(x, b[j])
  }

  lemma RotatedLacks(b: Bucket, n: nat, id: Key)
    requires n <= |b| && !Holds(b, id)
    ensures !Holds(b[n..] + b[..n], id)
  {
    var c := b[n..] + b[..n];
    forall j | 0 <= j < |c|
      ensures c[j].id != id
    {
      assert c[j] == if j < |b| - n then b[n + j] else b[j - (|b| - n)];
    }
  }

  lemma PutHead(c: Bucket, x: NetworkNode)
    requires c != []
    ensures IndexOf(c, c[0].id) == 0 && Holds(c, c[0].id) && Put(c, 0, x) == c[1..] + [x]
  {
    IndexOfIs(c, c[0].id, 0);
    assert c[..0] == [];
  }

  /** One more Add of x begins. */
  lemma CatchOne(s: State, s0: State, x: NetworkNode, b: Bucket, n: nat)
    requires ReadyToOverlap(s0, x) && b == BucketOf(s0, x.id) && n < K && Caught(s, s0, x, b, n)
    ensures StepsTo(s, Begin(n, x), State(s.table, s.pending[n := Pending(x, b[n])]))
    ensures WithinLimit(s, Begin(n, x), K)
  {
    assert (b[n..] + b[..n])[0] == b[n];
    RotatedLacks(b, n, x.id);
    BeginOnFull(s, n, x);
    BoundedSetSize(Waiting(s.pending, x.id), n);
  }

  lemma RefreshHeadOf(s: State, tid: nat, x: NetworkNode, y: NetworkNode)
    requires BucketIndex(s.table.owner, y.id) == BucketIndex(s.table.owner, x.id) && y.id != s.table.owner
    requires BucketOf(s, x.id) != [] && BucketOf(s, x.id)[0] == y && tid !in s.pending
    ensures var s' := Next(s, Begin(tid, y));
            s'.pending == s.pending && s'.table.owner == s.table.owner
            && BucketOf(s', x.id) == BucketOf(s, x.id)[1..] + [y]
    ensures BeginPending(s.table, y) == None
  {
    PutHead(BucketOf(s, x.id), y);
    BeginOnStored(s, tid, y);
  }

  lemma SharesBucket(s: State, x: NetworkNode, j: nat)
    requires ReadyToOverlap(s, x) && j < K
    ensures |BucketOf(s, x.id)| == K
    ensures var y := BucketOf(s, x.id)[j];
            BucketIndex(s.table.owner, y.id) == BucketIndex(s.table.owner, x.id) && y.id != s.table.owner
  {
    assert BucketInv(s.table.owner, BucketIndex(s.table.owner, x.id), BucketOf(s, x.id));
  }

  lemma CaughtOneMore(s: State, s': State, s0: State, x: NetworkNode, b: Bucket, n: nat)
    requires Caught(s, s0, x, b, n) && n < K && s'.table.owner == s.table.owner
    requires s'.pending == s.pending[n := Pending(x, b[n])] && BucketOf(s', x.id) == BucketOf(s, x.id)[1..] + [b[n]]
    ensures Caught(s', s0, x, b, n + 1)
  {
    hide BucketOf;
    assert (b[n..] + b[..n])[1..] + [b[n]] == b[n + 1..] + b[..n + 1];
  }

  lemma CaughtHead(s: State, s0: State, x: NetworkNode, b: Bucket, n: nat)
    requires Caught(s, s0, x, b, n) && n < K
    ensures s.table.owner == s0.table.owner && |b| == K && K !in s.pending
    ensures BucketOf(s, x.id) != [] && BucketOf(s, x.id)[0] == b[n]
  {
    hide BucketOf;
    assert (b[n..] + b[..n])[0] == b[n];
  }

  /** Its victim is refreshed. */
  lemma RefreshOne(s: State, s0: State, x: NetworkNode, b: Bucket, n: nat)
    requires ReadyToOverlap(s0, x) && b == BucketOf(s0, x.id) && |b| == K && n < K && Caught(s, s0, x, b, n)
    ensures var s1 := State(s.table, s.pending[n := Pending(x, b[n])]);
            Enabled(s1, Begin(K, b[n])) && WithinLimit(s1, Begin(K, b[n]), K)
            && Caught(Next(s1, Begin(K, b[n])), s0, x, b, n + 1)
  {
    var s1 := State(s.table, s.pending[n := Pending(x, b[n])]);
    SharesBucket(s0, x, n);
    CaughtHead(s, s0, x, b, n);
    assert BucketOf(s1, x.id) == BucketOf(s, x.id);
    RefreshHeadOf(s1, K, x, b[n]);
    hide BucketOf, Next, BucketIndex, ReadyToOverlap, BeginPending, Caught;
    CaughtOneMore(s, Next(s1, Begin(K, b[n])), s0, x, b, n);
  }

  lemma ReplaceOne(s: State, s0: State, x: NetworkNode, b: Bucket, n: nat) returns (s1: State)
    requires Replaced(s, s0, x, b, n) && n < K
    ensures StepsTo(s, Finish(n, false), s1) && Replaced(s1, s0, x, b, n + 1)
  {
    var c := b[n..] + seq(n, i => x);
    assert c[0] == b[n];
    PutHead(c, x);
    FinishDead(s, n);
    s1 := Next(s, Finish(n, false));
    assert c[1..] + [x] == b[n + 1..] + seq(n + 1, i => x);
  }

  lemma AllCaught(s: State, s0: State, x: NetworkNode, b: Bucket)
    requires Caught(s, s0, x, b, K)
    ensures Replaced(s, s0, x, b, 0)
  {
    assert b[K..] + b[..K] == b && b[0..] + seq(0, i => x) == b;
  }

  lemma RunWithinSnoc(states: seq<State>, events: seq<Event>, limit: nat, e: Event, s: State)
    requires RunWithin(states, events, limit) && StepsTo(states[|events|], e, s)
             && WithinLimit(states[|events|], e, limit)
    ensures RunWithin(states + [s], events + [e], limit)
  {
    hide WithinLimit, Enabled, Next;
    RunSnoc(states, events, e);
  }

  lemma BucketIsFull(s: State, x: NetworkNode)
    requires ReadyToOverlap(s, x)
    ensures |BucketOf(s, x.id)| == K
  {
  }

  lemma {:induction false} CatchAll(s0: State, x: NetworkNode, b: Bucket, n: nat)
    returns (states: seq<State>, events: seq<Event>)
    requires ReadyToOverlap(s0, x) && b == BucketOf(s0, x.id) && n <= K
    ensures RunWithin(states, events, K) && states[0] == s0 && Caught(states[|events|], s0, x, b, n)
    decreases n
  {
    if n == 0 {
      states, events := [s0], [];
      BucketIsFull(s0, x);
      assert b[0..] + b[..0] == b;
    } else {
      states, events := CatchAll(s0, x, b, n - 1);
      var s := states[|events|];
      var s1 := State(s.table, s.pending[n - 1 := Pending(x, b[n - 1])]);
      BucketIsFull(s0, x);
      CatchOne(s, s0, x, b, n - 1);
      RefreshOne(s, s0, x, b, n - 1);
      var s2 := Next(s1, Begin(K, b[n - 1]));
      hide *;
      RunWithinSnoc(states, events, K, Begin(n - 1, x), s1);
      states, events := states + [s1], events + [Begin(n - 1, x)];
      RunWithinSnoc(states, events, K, Begin(K, b[n - 1]), s2);
      states, events := states + [s2], events + [Begin(K, b[n - 1])];
    }
  }

  lemma {:induction false} ReplaceAll(s0: State, x: NetworkNode, b: Bucket, n: nat)
    returns (states: seq<State>, events: seq<Event>)
    requires ReadyToOverlap(s0, x) && b == BucketOf(s0, x.id) && n <= K
    ensures RunWithin(states, events, K) && states[0] == s0 && Replaced(states[|events|], s0, x, b, n)
    decreases n
  {
    hide Caught, Replaced, ReadyToOverlap, StepsTo, Next, Enabled;
    if n == 0 {
      states, events := CatchAll(s0, x, b, K);
      AllCaught(states[|events|], s0, x, b);
    } else {
      states, events := ReplaceAll(s0, x, b, n - 1);
      var s1 := ReplaceOne(states[|events|], s0, x, b, n - 1);
      RunWithinSnoc(states, events, K, Finish(n - 1, false), s1);
      states, events := states + [s1], events + [Finish(n - 1, false)];
    }
  }

  /** Asked for a target of a flooded bucket, a node names nobody but the one ID. */
  lemma FloodedAnswer(t: Table, id: Key, target: Key, r: seq<NetworkNode>)
    requires TableInv(t) && !NotFlooded(t, id) && target != t.owner
    requires BucketIndex(t.owner, target) == BucketIndex(t.owner, id) && IsFindClosest(Entries(t), target, K, r)
    ensures |r| == K && forall n :: n in r ==> n.id == id
  {
    Closest.BucketLocality(t, target, K, r);
  }

  /** The limit is sharp: from every table with a full bucket, K waiting Adds of one absent ID can fill that bucket
      with it. */
  lemma LimitIsSharp(s: State, x: NetworkNode) returns (states: seq<State>, events: seq<Event>)
    requires ReadyToOverlap(s, x)
    ensures RunWithin(states, events, K) && states[0] == s
    ensures Inv(states[|events|]) && !NotFlooded(states[|events|].table, x.id)
  {
    states, events := ReplaceAll(s, x, BucketOf(s, x.id), K);
    RunKeepsInv(states, events, 0, |events|);
    var b := BucketOf(states[|events|], x.id);
    assert |b| == K && forall j :: 0 <= j < K ==> b[j] == x;
  }
}
