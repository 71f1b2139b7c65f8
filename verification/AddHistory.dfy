/** What a run of overlapping Adds says about recency and eviction, and what one undisturbed Add does. */
module AddHistory {
  import opened Keys
  import opened Options
  import opened Tables
  import opened Adds

  // ---- Recency ----

  /** For every entry of every bucket, the step at which it was put where it is. */
  ghost function Stamps(states: seq<State>, events: seq<Event>, n: nat): (stamps: seq<seq<nat>>)
    requires Run(states, events) && n <= |events|
    ensures |stamps| == KEY_BITS
    decreases n
  {
    if n == 0 then seq(KEY_BITS, i => [])
    else
      var before := Stamps(states, events, n - 1);
      match EffectOf(states[n - 1], events[n - 1])
      case Nothing => before
      case Touch(idx, at, _) => if idx < KEY_BITS then before[idx := Put(before[idx], at, n - 1)] else before
  }

  /** The last step before n that stored or refreshed id. */
  ghost function LastTouch(states: seq<State>, events: seq<Event>, n: nat, id: Key): Option<nat>
    requires Run(states, events) && n <= |events|
    decreases n
  {
    if n == 0 then None
    else
      var effect := EffectOf(states[n - 1], events[n - 1]);
      if effect.Touch? && effect.node.id == id then Some(n - 1) else LastTouch(states, events, n - 1, id)
  }

  ghost predicate StampedBy(b: Bucket, stamps: seq<nat>, n: nat) {
    |stamps| == |b|
    && (forall j :: 0 <= j < |b| ==> stamps[j] < n)
    && forall j, k :: 0 <= j < k < |b| ==> stamps[j] < stamps[k]
  }

  lemma PutStamped(b: Bucket, stamps: seq<nat>, n: nat, at: nat, x: NetworkNode)
    requires StampedBy(b, stamps, n)
    ensures StampedBy(Put(b, at, x), Put(stamps, at, n), n + 1)
  {
    PutAt(b, at, x);
    PutAt(stamps, at, n);
  }

  /** In every interleaving every bucket is ordered by last touch, oldest first. */
  lemma {:induction false} BucketsAreOrderedByTouch(states: seq<State>, events: seq<Event>, n: nat, owner: Key, i: nat)
    requires Run(states, events) && states[0] == Initial(owner) && n <= |events| && i < KEY_BITS
    ensures StampedBy(states[n].table.buckets[i], Stamps(states, events, n)[i], n)
    decreases n
  {
    if n > 0 {
      BucketsAreOrderedByTouch(states, events, n - 1, owner, i);
      var effect := EffectOf(states[n - 1], events[n - 1]);
      var b, st := states[n - 1].table.buckets[i], Stamps(states, events, n - 1)[i];
      assert StampedBy(b, st, n);
      if effect.Touch? && effect.idx == i {
        PutStamped(b, st, n - 1, effect.at, effect.node);
      }
    }
  }

  /** No later entry of the bucket has the ID of entry j. */
  ghost predicate IsLast(b: Bucket, j: nat) {
    j < |b| && forall k :: j < k < |b| ==> b[k].id != b[j].id
  }

  /** Each stamp is a step that stored exactly its entry in this bucket; the stamp of an ID's last entry is the last
      step that touched the ID. */
  ghost predicate StampsNameTouches(states: seq<State>, events: seq<Event>, n: nat, i: nat, b: Bucket, stamps: seq<nat>)
    requires Run(states, events) && n <= |events|
  {
    |stamps| == |b|
    && forall j :: 0 <= j < |b| ==> StoredAt(states, events, n, i, stamps[j], b[j])
                                    && (IsLast(b, j) ==> LastTouch(states, events, n, b[j].id) == Some(stamps[j]))
  }

  ghost predicate StoredAt(states: seq<State>, events: seq<Event>, n: nat, i: nat, k: nat, x: NetworkNode)
    requires Run(states, events) && n <= |events|
  {
    k < n && var effect := EffectOf(states[k], events[k]); effect.Touch? && effect.idx == i && effect.node == x
  }

  /** A section takes out the first entry of an ID. */
  lemma EffectTakesFirst(s: State, e: Event)
    requires Enabled(s, e)
    ensures var effect := EffectOf(s, e);
            effect.Touch? && effect.idx < KEY_BITS ==>
              var b := s.table.buckets[effect.idx];
              forall j :: 0 <= j < effect.at < |b| ==> b[j].id != b[effect.at].id
  {
  }

  lemma LastWasLast(b: Bucket, at: nat, x: NetworkNode, j: nat)
    requires j < |Put(b, at, x)| - 1 && IsLast(Put(b, at, x), j)
    requires forall k :: 0 <= k < at < |b| ==> b[k].id != b[at].id
    ensures Put(b, at, x)[j].id != x.id && IsLast(b, Origin(|b|, at, j))
  {
    var c, o := Put(b, at, x), Origin(|b|, at, j);
    PutAt(b, at, x);
    assert c[|c| - 1] == x;
    forall k | o < k < |b|
      ensures b[k].id != b[o].id
    {
      if k != at {
        var k' := if at < |b| && at < k then k - 1 else k;
        assert c[k'] == b[k] && j < k';
      }
    }
  }

  lemma TouchedBucket(states: seq<State>, events: seq<Event>, n: nat, i: nat, b: Bucket, stamps: seq<nat>, at: nat,
                      x: NetworkNode)
    requires Run(states, events) && n < |events| && StampsNameTouches(states, events, n, i, b, stamps)
    requires EffectOf(states[n], events[n]) == Touch(i, at, x)
    requires forall j :: 0 <= j < at < |b| ==> b[j].id != b[at].id
    ensures StampsNameTouches(states, events, n + 1, i, Put(b, at, x), Put(stamps, at, n))
  {
    var b', st' := Put(b, at, x), Put(stamps, at, n);
    PutAt(b, at, x);
    PutAt(stamps, at, n);
    hide Put, EffectOf, Run;
    forall j | 0 <= j < |b'|
      ensures StoredAt(states, events, n + 1, i, st'[j], b'[j])
              && (IsLast(b', j) ==> LastTouch(states, events, n + 1, b'[j].id) == Some(st'[j]))
    {
      if j < |b'| - 1 {
        var o := Origin(|b|, at, j);
        assert StoredAt(states, events, n, i, stamps[o], b[o]);
        if IsLast(b', j) {
          LastWasLast(b, at, x, j);
        }
      }
    }
  }

  lemma UntouchedBucket(states: seq<State>, events: seq<Event>, n: nat, i: nat, b: Bucket, stamps: seq<nat>)
    requires Run(states, events) && n < |events| && StampsNameTouches(states, events, n, i, b, stamps)
    requires var effect := EffectOf(states[n], events[n]);
             effect.Touch? ==> forall j :: 0 <= j < |b| ==> b[j].id != effect.node.id
    ensures StampsNameTouches(states, events, n + 1, i, b, stamps)
  {
    hide EffectOf, Run;
    forall j | 0 <= j < |b|
      ensures StoredAt(states, events, n + 1, i, stamps[j], b[j])
              && (IsLast(b, j) ==> LastTouch(states, events, n + 1, b[j].id) == Some(stamps[j]))
    {
      assert StoredAt(states, events, n, i, stamps[j], b[j]);
    }
  }

  lemma OtherBucketsLackId(t: Table, effect: Effect, i: nat)
    requires TableInv(t) && GoodEffect(t, effect) && i < KEY_BITS
    ensures effect.Touch? && effect.idx != i ==>
              forall j :: 0 <= j < |t.buckets[i]| ==> t.buckets[i][j].id != effect.node.id
  {
    assert BucketInv(t.owner, i, t.buckets[i]);
  }

  lemma NextBucket(s: State, e: Event, i: nat)
    requires Enabled(s, e) && i < KEY_BITS
    ensures var effect, b := EffectOf(s, e), s.table.buckets[i];
            Next(s, e).table.buckets[i]
            == if effect.Touch? && effect.idx == i then Put(b, effect.at, effect.node) else b
  {
  }

  lemma StampsNameTouchesStep(states: seq<State>, events: seq<Event>, n: nat, i: nat)
    requires Run(states, events) && n < |events| && i < KEY_BITS && Inv(states[n])
    requires StampsNameTouches(states, events, n, i, states[n].table.buckets[i], Stamps(states, events, n)[i])
    ensures StampsNameTouches(states, events, n + 1, i, states[n + 1].table.buckets[i],
                              Stamps(states, events, n + 1)[i])
  {
    var s, st := states[n], Stamps(states, events, n)[i];
    var effect, b := EffectOf(s, events[n]), s.table.buckets[i];
    assert Enabled(s, events[n]) && states[n + 1] == Next(s, events[n]);
    EffectIsGood(s, events[n]);
    EffectTakesFirst(s, events[n]);
    OtherBucketsLackId(s.table, effect, i);
    NextBucket(s, events[n], i);
    assert Stamps(states, events, n + 1)[i] == if effect.Touch? && effect.idx == i then Put(st, effect.at, n) else st;
    hide Next, EffectOf, Put, Stamps, StampsNameTouches, Run, Inv;
    if effect.Touch? && effect.idx == i {
      TouchedBucket(states, events, n, i, b, st, effect.at, effect.node);
    } else {
      UntouchedBucket(states, events, n, i, b, st);
    }
  }

  /** In every interleaving, overlapping Adds of one ID included, a bucket's stamps are the steps that put its entries
      there, and that of an ID's last entry is the last step that touched the ID. */
  lemma {:induction false} StampsAreTouches(states: seq<State>, events: seq<Event>, n: nat, owner: Key, i: nat)
    requires Run(states, events) && states[0] == Initial(owner) && n <= |events| && i < KEY_BITS
    ensures StampsNameTouches(states, events, n, i, states[n].table.buckets[i], Stamps(states, events, n)[i])
    decreases n
  {
    if n > 0 {
      StampsAreTouches(states, events, n - 1, owner, i);
      RunKeepsStateInv(states, events, n - 1);
      StampsNameTouchesStep(states, events, n - 1, i);
    }
  }

  /** Where Adds of one ID never overlap, every entry's position is decided by the last step that touched its ID. */
  lemma StampIsLastTouch(states: seq<State>, events: seq<Event>, n: nat, owner: Key, i: nat)
    requires ExclusiveRun(states, events) && states[0] == Initial(owner) && n <= |events| && i < KEY_BITS
    ensures var b, stamps := states[n].table.buckets[i], Stamps(states, events, n)[i];
            |stamps| == |b|
            && forall j :: 0 <= j < |b| ==> LastTouch(states, events, n, b[j].id) == Some(stamps[j])
  {
    StampsAreTouches(states, events, n, owner, i);
    ExclusiveRunIsUnique(states, events, n);
    var b := states[n].table.buckets[i];
    assert UniqueBucket(b);
    assert forall j :: 0 <= j < |b| ==> IsLast(b, j);
  }

  // ---- Eviction ----

  /** Every pending Add began by finding its bucket full, its candidate absent and its victim at the head. */
  lemma {:induction false} PendingBegan(states: seq<State>, events: seq<Event>, n: nat, tid: nat) returns (m: nat)
    requires Run(states, events) && states[0].pending == map[] && n <= |events| && tid in states[n].pending
    ensures m < n && events[m].Begin? && events[m].tid == tid
    ensures BeginPending(states[m].table, events[m].node) == Some(states[n].pending[tid])
    decreases n
  {
    var s, e := states[n - 1], events[n - 1];
    if e.Begin? && e.tid == tid && BeginPending(s.table, e.node).Some? {
      m := n - 1;
    } else {
      m := PendingBegan(states, events, n - 1, tid);
    }
  }

  /** Why id left bucket i at step n: the Add that finishes there had seen id at the head of the full bucket, at step
      m, for a candidate the bucket did not hold, and its ping has failed. */
  ghost predicate EvictedBy(states: seq<State>, events: seq<Event>, n: nat, i: nat, id: Key, m: nat)
    requires Run(states, events) && n < |events| && i < KEY_BITS
  {
    m < n && events[m].Begin?
    && (var b := states[m].table.buckets[i];
        |b| == K && b[0].id == id && !Holds(b, events[m].node.id)
        && BucketIndex(states[m].table.owner, events[m].node.id) == i)
    && events[n].Finish? && !events[n].alive && events[m].tid == events[n].tid
    && states[n].pending[events[n].tid] == Pending(events[m].node, states[m].table.buckets[i][0])
  }

  lemma EvictionStep(s: State, e: Event, i: nat, id: Key)
    requires Inv(s) && Enabled(s, e) && i < KEY_BITS
    requires Holds(s.table.buckets[i], id) && !Holds(Next(s, e).table.buckets[i], id)
    ensures e.Finish? && !e.alive && s.pending[e.tid].victim.id == id
    ensures BucketIndex(s.table.owner, s.pending[e.tid].candidate.id) == i
  {
    var effect, b := EffectOf(s, e), s.table.buckets[i];
    assert effect.Touch? && effect.idx == i;
    PutHolds(b, effect.at, effect.node, id);
    assert effect.at < |b| && b[effect.at].id == id && effect.node.id != id;
  }

  /** In every interleaving an ID leaves a bucket only by that failed ping. */
  lemma EvictionIsFair(states: seq<State>, events: seq<Event>, n: nat, i: nat, id: Key)
    requires Run(states, events) && Inv(states[0]) && states[0].pending == map[] && n < |events| && i < KEY_BITS
    requires Holds(states[n].table.buckets[i], id) && !Holds(states[n + 1].table.buckets[i], id)
    ensures exists m :: EvictedBy(states, events, n, i, id, m)
  {
    RunKeepsStateInv(states, events, n);
    EvictionStep(states[n], events[n], i, id);
    var m := PendingBegan(states, events, n, events[n].tid);
    RunKeepsInv(states, events, m, n);
    RunKeepsStateInv(states, events, m);
    assert BucketInv(states[m].table.owner, i, states[m].table.buckets[i]);
    assert EvictedBy(states, events, n, i, id, m);
  }

  // ---- One Add at a time ----

  /** An undisturbed Add is its two sections in a row. */
  lemma SerialAddIsARun(s: State, tid: nat, node: NetworkNode, alive: bool)
    requires Inv(s) && s.pending == map[]
    ensures var s1 := Next(s, Begin(tid, node));
            if tid in s1.pending
            then AddSerially(s.table, node, alive) == Next(s1, Finish(tid, alive)).table
                 && Next(s1, Finish(tid, alive)).pending == map[]
            else AddSerially(s.table, node, alive) == s1.table && s1.pending == map[]
  {
  }

  lemma SerialAddKeepsInv(t: Table, node: NetworkNode, alive: bool)
    requires TableInv(t)
    ensures TableInv(AddSerially(t, node, alive)) && Grown(t, AddSerially(t, node, alive))
    ensures Unique(t) ==> Unique(AddSerially(t, node, alive))
  {
    var s := State(t, map[]);
    var s1 := Next(s, Begin(0, node));
    SerialAddIsARun(s, 0, node, alive);
    StepKeepsInv(s, Begin(0, node));
    if Unique(t) {
      StepKeepsUnique(s, Begin(0, node));
    }
    if 0 in s1.pending {
      StepKeepsInv(s1, Finish(0, alive));
      if Unique(t) {
        StepKeepsUnique(s1, Finish(0, alive));
      }
    }
  }

  lemma PutHoldsIff(b: Bucket, at: nat, x: NetworkNode, id: Key)
    requires UniqueBucket(b)
    ensures Holds(Put(b, at, x), id) <==> id == x.id || (Holds(b, id) && !(at < |b| && b[at].id == id))
  {
    PutHolds(b, at, x, id);
  }

  lemma ApplyHasId(t: Table, effect: Effect, id: Key)
    requires TableInv(t) && Unique(t) && GoodEffect(t, effect) && effect.Touch?
    ensures var b := t.buckets[effect.idx];
            HasId(Apply(t, effect), id)
            <==> id == effect.node.id || (HasId(t, id) && !(effect.at < |b| && b[effect.at].id == id))
  {
    var b := t.buckets[effect.idx];
    assert UniqueBucket(b) && BucketInv(t.owner, effect.idx, b);
    PutHoldsIff(b, effect.at, effect.node, id);
  }

  /** Which IDs an undisturbed Add leaves in the table: all the old ones and the new one, except that a full bucket
      keeps its set when its least recently seen entry answers and trades that entry when it does not. */
  lemma SerialAddMembership(t: Table, node: NetworkNode, alive: bool, id: Key)
    requires TableInv(t) && Unique(t) && node.id != t.owner
    ensures var b := t.buckets[BucketIndex(t.owner, node.id)];
            HasId(AddSerially(t, node, alive), id)
            <==>
            if Holds(b, node.id) || |b| < K then HasId(t, id) || id == node.id
            else if alive then HasId(t, id)
            else id == node.id || (HasId(t, id) && id != b[0].id)
  {
    var s := State(t, map[]);
    EffectIsGood(s, Begin(0, node));
    match BeginPending(t, node)
    case None =>
      ApplyHasId(t, BeginEffect(t, node), id);
    case Some(p) =>
      var idx := BucketIndex(t.owner, node.id);
      assert BucketInv(t.owner, idx, t.buckets[idx]);
      HeadIsFirst(t.buckets[idx]);
      ApplyHasId(t, FinishEffect(t, p, alive), id);
  }

  lemma HeadIsFirst(b: Bucket)
    requires b != []
    ensures IndexOf(b, b[0].id) == 0
  {
  }
}
