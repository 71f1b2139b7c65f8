/** Uniqueness of IDs is lost when two Adds of one ID overlap: from every table with a full bucket, by five steps. */
module Overlap {
  import opened Bits
  import opened Keys
  import opened Tables
  import opened Adds

  ghost predicate ReadyToOverlap(s: State, x: NetworkNode) {
    Inv(s) && Unique(s.table) && s.pending == map[] && x.id != s.table.owner
    && var b := s.table.buckets[BucketIndex(s.table.owner, x.id)]; |b| == K && !Holds(b, x.id)
  }

  /** Two Adds of x ping different victims, because the first victim is refreshed in between; both pings fail. */
  function OverlappingAdds(s: State, x: NetworkNode): seq<Event> {
    var b := s.table.buckets[BucketIndex(s.table.owner, x.id)];
    if b == [] then []
    else [Begin(1, x), Begin(2, b[0]), Begin(3, x), Finish(1, false), Finish(3, false)]
  }

  lemma IndexOfIs(b: Bucket, id: Key, j: nat)
    requires j < |b| && b[j].id == id && forall i :: 0 <= i < j ==> b[i].id != id
    ensures IndexOf(b, id) == j && Holds(b, id)
  {
  }

  lemma RefreshHead(b: Bucket, x: NetworkNode)
    requires |b| == K && UniqueBucket(b) && !Holds(b, x.id)
    ensures IndexOf(b, b[0].id) == 0 && Put(b, 0, b[0]) == b[1..] + [b[0]]
    ensures !Holds(b[1..] + [b[0]], x.id)
  {
    var c := b[1..] + [b[0]];
    IndexOfIs(b, b[0].id, 0);
    forall j | 0 <= j < K
      ensures c[j].id != x.id
    {
      assert c[j] == b[if j == K - 1 then 0 else j + 1];
    }
  }

  lemma ReplaceTail(b: Bucket, x: NetworkNode)
    requires |b| == K && UniqueBucket(b)
    ensures IndexOf(b[1..] + [b[0]], b[0].id) == K - 1 && Put(b[1..] + [b[0]], K - 1, x) == b[1..] + [x]
  {
    var c := b[1..] + [b[0]];
    forall j | 0 <= j < K - 1
      ensures c[j].id != b[0].id
    {
      assert c[j] == b[j + 1];
    }
    IndexOfIs(c, b[0].id, K - 1);
    assert c[..K - 1] == b[1..];
  }

  lemma ReplaceHead(b: Bucket, x: NetworkNode)
    requires |b| == K
    ensures IndexOf(b[1..] + [x], b[1].id) == 0 && Put(b[1..] + [x], 0, x) == b[2..] + [x, x]
  {
    var d := b[1..] + [x];
    assert d[0] == b[1];
    IndexOfIs(d, b[1].id, 0);
    assert d[1..] == b[2..] + [x];
  }

  function BucketOf(s: State, id: Key): Bucket {
    s.table.buckets[BucketIndex(s.table.owner, id)]
  }

  lemma BeginOnFull(s: State, tid: nat, x: NetworkNode)
    requires tid !in s.pending && x.id != s.table.owner
    requires |BucketOf(s, x.id)| == K && !Holds(BucketOf(s, x.id), x.id)
    ensures Next(s, Begin(tid, x)) == State(s.table, s.pending[tid := Pending(x, BucketOf(s, x.id)[0])])
  {
  }

  lemma BeginOnStored(s: State, tid: nat, x: NetworkNode)
    requires tid !in s.pending && x.id != s.table.owner && Holds(BucketOf(s, x.id), x.id)
    ensures var s' := Next(s, Begin(tid, x));
            s'.pending == s.pending && s'.table.owner == s.table.owner
            && BucketOf(s', x.id) == Put(BucketOf(s, x.id), IndexOf(BucketOf(s, x.id), x.id), x)
  {
  }

  lemma FinishDead(s: State, tid: nat)
    requires tid in s.pending && Holds(BucketOf(s, s.pending[tid].candidate.id), s.pending[tid].victim.id)
    ensures var s', p := Next(s, Finish(tid, false)), s.pending[tid];
            var b := BucketOf(s, p.candidate.id);
            s'.pending == s.pending - {tid} && s'.table.owner == s.table.owner
            && BucketOf(s', p.candidate.id) == Put(b, IndexOf(b, p.victim.id), p.candidate)
  {
  }

  predicate StepsTo(s: State, e: Event, s': State) {
    Enabled(s, e) && s' == Next(s, e)
  }

  /** The three first sections: one Add of x waits for b[0], a refresh moves b[0] to the tail, another waits for
      b[1]. */
  lemma TwoAddsWait(s: State, x: NetworkNode, b: Bucket) returns (s1: State, s2: State, s3: State)
    requires ReadyToOverlap(s, x) && b == BucketOf(s, x.id)
    ensures |b| == K
    ensures StepsTo(s, Begin(1, x), s1) && StepsTo(s1, Begin(2, b[0]), s2) && StepsTo(s2, Begin(3, x), s3)
    ensures s3.pending == map[1 := Pending(x, b[0]), 3 := Pending(x, b[1])]
    ensures s3.table.owner == s.table.owner && BucketOf(s3, x.id) == b[1..] + [b[0]]
  {
    assert UniqueBucket(b) && BucketInv(s.table.owner, BucketIndex(s.table.owner, x.id), b);
    assert BucketOf(s, b[0].id) == b;
    RefreshHead(b, x);
    BeginOnFull(s, 1, x);
    s1 := Next(s, Begin(1, x));
    BeginOnStored(s1, 2, b[0]);
    s2 := Next(s1, Begin(2, b[0]));
    BeginOnFull(s2, 3, x);
    s3 := Next(s2, Begin(3, x));
  }

  lemma BothPingsFail(s: State, b: Bucket, x: NetworkNode) returns (s4: State, s5: State)
    requires |b| == K && UniqueBucket(b)
    requires s.pending == map[1 := Pending(x, b[0]), 3 := Pending(x, b[1])]
    requires BucketOf(s, x.id) == b[1..] + [b[0]]
    ensures StepsTo(s, Finish(1, false), s4) && StepsTo(s4, Finish(3, false), s5)
    ensures BucketOf(s5, x.id) == b[2..] + [x, x]
  {
    ReplaceTail(b, x);
    ReplaceHead(b, x);
    FinishDead(s, 1);
    s4 := Next(s, Finish(1, false));
    FinishDead(s4, 3);
    s5 := Next(s4, Finish(3, false));
  }

  lemma RunOfFive(s0: State, s1: State, s2: State, s3: State, s4: State, s5: State, events: seq<Event>)
    requires |events| == 5
    requires StepsTo(s0, events[0], s1) && StepsTo(s1, events[1], s2) && StepsTo(s2, events[2], s3)
    requires StepsTo(s3, events[3], s4) && StepsTo(s4, events[4], s5)
    ensures Run([s0, s1, s2, s3, s4, s5], events)
  {
    hide Next, Enabled;
  }

  lemma OverlappingRun(s: State, x: NetworkNode, s1: State, s2: State, s3: State, s4: State, s5: State)
    requires BucketOf(s, x.id) != []
    requires StepsTo(s, Begin(1, x), s1) && StepsTo(s1, Begin(2, BucketOf(s, x.id)[0]), s2)
    requires StepsTo(s2, Begin(3, x), s3) && StepsTo(s3, Finish(1, false), s4) && StepsTo(s4, Finish(3, false), s5)
    ensures Run([s, s1, s2, s3, s4, s5], OverlappingAdds(s, x))
  {
    hide StepsTo, Run, BucketIndex;
    RunOfFive(s, s1, s2, s3, s4, s5, OverlappingAdds(s, x));
  }

  lemma ReadyIsUnique(s: State, x: NetworkNode)
    requires ReadyToOverlap(s, x)
    ensures |BucketOf(s, x.id)| == K && UniqueBucket(BucketOf(s, x.id))
  {
  }

  lemma OverlapDuplicates(s: State, x: NetworkNode) returns (states: seq<State>)
    requires ReadyToOverlap(s, x)
    ensures Run(states, OverlappingAdds(s, x)) && states[0] == s
    ensures |states| == 6 && !Unique(states[5].table)
  {
    ReadyIsUnique(s, x);
    var b := BucketOf(s, x.id);
    hide *;
    var s1, s2, s3 := TwoAddsWait(s, x, b);
    var s4, s5 := BothPingsFail(s3, b, x);
    OverlappingRun(s, x, s1, s2, s3, s4, s5);
    TwiceIsNotUnique(s5, b, x);
    states := [s, s1, s2, s3, s4, s5];
  }

  lemma TwiceIsNotUnique(s: State, b: Bucket, x: NetworkNode)
    requires |b| == K && BucketOf(s, x.id) == b[2..] + [x, x]
    ensures !Unique(s.table)
  {
    var c := BucketOf(s, x.id);
    assert c[K - 2] == x && c[K - 1] == x;
    assert !UniqueBucket(c);
  }

  // ---- Such a table exists ----

  const ZERO_KEY: Key := Key([0, 0, 0, 0, 0, 0, 0, 0, 0, 0, 0, 0, 0, 0, 0, 0, 0, 0, 0, 0])

  /** Keys that differ from ZERO_KEY in the top bit and from one another in the last byte. */
  function FarKey(i: byte): Key {
    Key([128, 0, 0, 0, 0, 0, 0, 0, 0, 0, 0, 0, 0, 0, 0, 0, 0, 0, 0, i])
  }

  function FarNode(i: byte): NetworkNode {
    NetworkNode(FarKey(i), [127, 0, 0, 1], 9000, map[])
  }

  lemma {:induction false} ValueOfZeros(bs: Bytes)
    requires forall j :: 0 <= j < |bs| ==> bs[j] == 0
    ensures Value(bs) == 0
  {
    if bs != [] {
      ValueOfZeros(bs[..|bs| - 1]);
    }
  }

  lemma {:induction false} ValueOfHighByte(bs: Bytes)
    requires bs != [] && bs[0] >= 128
    ensures Value(bs) >= Pow2(8 * |bs| - 1)
  {
    if |bs| == 1 {
      Pow2Byte(0);
      assert Value(bs) == 256 * Value([]) + bs[0];
      assert bs[..0] == [];
    } else {
      ValueOfHighByte(bs[..|bs| - 1]);
      Pow2Byte(8 * (|bs| - 1) - 1);
    }
  }

  lemma FarBucket(i: byte)
    ensures FarKey(i) != ZERO_KEY && BucketIndex(ZERO_KEY, FarKey(i)) == KEY_BITS - 1
  {
    ValueOfZeros(ZERO_KEY.bytes);
    ValueOfHighByte(FarKey(i).bytes);
    XorZero(Value(FarKey(i).bytes));
    assert ZERO_KEY.bytes[0] != FarKey(i).bytes[0];
    DistanceBound(ZERO_KEY, FarKey(i));
    BitLenBound(GetKeyDistance(ZERO_KEY, FarKey(i)), KEY_BITS - 1);
  }

  function FullBucket(): Bucket {
    seq(K, j requires 0 <= j < K => FarNode(j))
  }

  lemma FarKeysDiffer(i: byte, j: byte)
    requires i != j
    ensures FarKey(i) != FarKey(j)
  {
    assert FarKey(i).bytes[19] == i && FarKey(j).bytes[19] == j;
  }

  lemma FullBucketIsGood()
    ensures BucketInv(ZERO_KEY, KEY_BITS - 1, FullBucket()) && UniqueBucket(FullBucket())
    ensures !Holds(FullBucket(), FarKey(K))
  {
    forall j | 0 <= j < K
      ensures FullBucket()[j].id != ZERO_KEY && BucketIndex(ZERO_KEY, FullBucket()[j].id) == KEY_BITS - 1
      ensures FullBucket()[j].id != FarKey(K)
    {
      FarBucket(j);
      FarKeysDiffer(j, K);
    }
    forall j, k | 0 <= j < k < K
      ensures FullBucket()[j].id != FullBucket()[k].id
    {
      FarKeysDiffer(j, k);
    }
  }

  /** A table whose only entries are those of its last bucket. */
  function TableWith(owner: Key, b: Bucket): Table {
    var t := Initial(owner).table;
    t.(buckets := t.buckets[KEY_BITS - 1 := b])
  }

  lemma ReadyWith(owner: Key, b: Bucket, x: NetworkNode)
    requires BucketInv(owner, KEY_BITS - 1, b) && UniqueBucket(b) && |b| == K && !Holds(b, x.id)
    requires x.id != owner && BucketIndex(owner, x.id) == KEY_BITS - 1
    ensures ReadyToOverlap(State(TableWith(owner, b), map[]), x)
  {
  }

  lemma FullTableExists() returns (s: State, x: NetworkNode)
    ensures ReadyToOverlap(s, x)
  {
    x := FarNode(K);
    s := State(TableWith(ZERO_KEY, FullBucket()), map[]);
    FarBucket(K);
    FullBucketIsGood();
    ReadyWith(ZERO_KEY, FullBucket(), x);
  }
}
