/** RoutingTable.Add under concurrency: any number of Adds, each in two locked sections with a ping between them. */
module Adds {
  import opened Keys
  import opened Options
  import opened Tables

  datatype State = State(table: Table, pending: map<nat, Pending>)

  /** Begin is an Add's first locked section; Finish its second one, after its ping was answered (alive) or not. */
  datatype Event = Begin(tid: nat, node: NetworkNode) | Finish(tid: nat, alive: bool)

  predicate Enabled(s: State, e: Event) {
    match e
    case Begin(tid, _) => tid !in s.pending
    case Finish(tid, _) => tid in s.pending
  }

  function EffectOf(s: State, e: Event): Effect
    requires Enabled(s, e)
  {
    match e
    case Begin(_, node) => BeginEffect(s.table, node)
    case Finish(tid, alive) => FinishEffect(s.table, s.pending[tid], alive)
  }

  function PendingAfter(s: State, e: Event): map<nat, Pending>
    requires Enabled(s, e)
  {
    match e
    case Begin(tid, node) =>
      (match BeginPending(s.table, node)
       case None => s.pending
       case Some(p) => s.pending[tid := p])
    case Finish(tid, _) => s.pending - {tid}
  }

  function Next(s: State, e: Event): State
    requires Enabled(s, e)
  {
    State(Apply(s.table, EffectOf(s, e)), PendingAfter(s, e))
  }

  /** An interleaving: states[n] is the state before events[n]. */
  ghost predicate Run(states: seq<State>, events: seq<Event>) {
    |states| == |events| + 1
    && forall n :: 0 <= n < |events| ==> Enabled(states[n], events[n]) && states[n + 1] == Next(states[n], events[n])
  }

  lemma RunSnoc(states: seq<State>, events: seq<Event>, e: Event)
    requires Run(states, events) && Enabled(states[|events|], e)
    ensures Run(states + [Next(states[|events|], e)], events + [e])
  {
    hide Enabled, Next;
  }

  lemma RunConcat(s1: seq<State>, e1: seq<Event>, s2: seq<State>, e2: seq<Event>)
    requires Run(s1, e1) && Run(s2, e2) && s1[|e1|] == s2[0]
    ensures Run(s1[..|e1|] + s2, e1 + e2)
  {
    hide Enabled, Next;
    var states, events := s1[..|e1|] + s2, e1 + e2;
    forall n | 0 <= n < |events|
      ensures Enabled(states[n], events[n]) && states[n + 1] == Next(states[n], events[n])
    {
      if n < |e1| {
        assert states[n] == s1[n] && states[n + 1] == s1[n + 1] && events[n] == e1[n];
      } else {
        assert states[n] == s2[n - |e1|] && states[n + 1] == s2[n + 1 - |e1|] && events[n] == e2[n - |e1|];
      }
    }
  }

  /** NewRoutingTable. */
  function Initial(owner: Key): State {
    State(Table(owner, seq(KEY_BITS, i => [])), map[])
  }

  ghost predicate Inv(s: State) {
    TableInv(s.table) && forall tid :: tid in s.pending ==> PendingInv(s.table.owner, s.pending[tid])
  }

  // ---- The invariant of every interleaving ----

  ghost predicate GoodEffect(t: Table, effect: Effect) {
    effect.Touch? ==>
      effect.idx < KEY_BITS && effect.node.id != t.owner && BucketIndex(t.owner, effect.node.id) == effect.idx
      && (effect.at < |t.buckets[effect.idx]| || |t.buckets[effect.idx]| < K)
  }

  lemma EffectIsGood(s: State, e: Event)
    requires Inv(s) && Enabled(s, e)
    ensures GoodEffect(s.table, EffectOf(s, e))
  {
    if e.Finish? {
      assert PendingInv(s.table.owner, s.pending[e.tid]);
    }
  }

  lemma ApplyKeepsInv(t: Table, effect: Effect)
    requires TableInv(t) && GoodEffect(t, effect)
    ensures TableInv(Apply(t, effect)) && Grown(t, Apply(t, effect))
  {
    if effect.Touch? {
      var b := t.buckets[effect.idx];
      PutAt(b, effect.at, effect.node);
      assert BucketInv(t.owner, effect.idx, b);
      assert BucketInv(t.owner, effect.idx, Put(b, effect.at, effect.node));
    }
  }

  /** One step keeps every bucket within K and correctly filled, and shortens none. */
  lemma StepKeepsInv(s: State, e: Event)
    requires Inv(s) && Enabled(s, e)
    ensures Inv(Next(s, e)) && Grown(s.table, Next(s, e).table)
  {
    EffectIsGood(s, e);
    ApplyKeepsInv(s.table, EffectOf(s, e));
    if e.Begin? && BeginPending(s.table, e.node).Some? {
      var idx := BucketIndex(s.table.owner, e.node.id);
      assert BucketInv(s.table.owner, idx, s.table.buckets[idx]);
    }
  }

  lemma GrownIsTransitive(t1: Table, t2: Table, t3: Table)
    requires Grown(t1, t2) && Grown(t2, t3)
    ensures Grown(t1, t3)
  {
  }

  lemma {:induction false} RunKeepsStateInv(states: seq<State>, events: seq<Event>, n: nat)
    requires Run(states, events) && Inv(states[0]) && n <= |events|
    ensures Inv(states[n])
    decreases n
  {
    if n > 0 {
      RunKeepsStateInv(states, events, n - 1);
      StepKeepsInv(states[n - 1], events[n - 1]);
    }
  }

  lemma {:induction false} RunGrows(states: seq<State>, events: seq<Event>, m: nat, n: nat)
    requires Run(states, events) && Inv(states[0]) && m <= n <= |events|
    ensures Grown(states[m].table, states[n].table)
    decreases n
  {
    hide Next, Inv, Enabled;
    if m < n {
      RunGrows(states, events, m, n - 1);
      RunGrowsOnce(states, events, n - 1);
      GrownIsTransitive(states[m].table, states[n - 1].table, states[n].table);
    }
  }

  lemma RunGrowsOnce(states: seq<State>, events: seq<Event>, n: nat)
    requires Run(states, events) && Inv(states[0]) && n < |events|
    ensures Grown(states[n].table, states[n + 1].table)
  {
    RunKeepsStateInv(states, events, n);
    StepKeepsInv(states[n], events[n]);
  }

  /** Whatever the interleaving and the pings: capacity, placement, no owner, and buckets never shrink. */
  lemma RunKeepsInv(states: seq<State>, events: seq<Event>, m: nat, n: nat)
    requires Run(states, events) && Inv(states[0]) && m <= n <= |events|
    ensures Inv(states[n]) && Grown(states[m].table, states[n].table)
  {
    RunKeepsStateInv(states, events, n);
    RunGrows(states, events, m, n);
  }

  // ---- One entry per ID ----

  /** No Add of the same ID is in flight. */
  predicate Exclusive(s: State, e: Event) {
    e.Begin? ==> forall tid :: tid in s.pending ==> s.pending[tid].candidate.id != e.node.id
  }

  ghost predicate ExclusiveRun(states: seq<State>, events: seq<Event>) {
    Run(states, events) && forall n :: 0 <= n < |events| ==> Exclusive(states[n], events[n])
  }

  /** Every ID once, and no ID both stored and waiting to be, or waiting twice. */
  ghost predicate UniqueInv(s: State) {
    Unique(s.table)
    && (forall tid :: tid in s.pending ==> !HasId(s.table, s.pending[tid].candidate.id))
    && (forall t1, t2 :: t1 in s.pending && t2 in s.pending && t1 != t2
          ==> s.pending[t1].candidate.id != s.pending[t2].candidate.id)
  }

  lemma PutHolds(b: Bucket, at: nat, x: NetworkNode, id: Key)
    ensures Holds(Put(b, at, x), id) ==> id == x.id || Holds(b, id)
    ensures id == x.id ==> Holds(Put(b, at, x), id)
    ensures Holds(b, id) && (at < |b| ==> b[at].id != id) ==> Holds(Put(b, at, x), id)
    ensures UniqueBucket(b) && at < |b| && id != x.id && Holds(Put(b, at, x), id) ==> id != b[at].id
  {
    var c := Put(b, at, x);
    PutAt(b, at, x);
    if Holds(c, id) && id != x.id {
      var o := Origin(|b|, at, IndexOf(c, id));
      assert b[o].id == id;
    }
    if id == x.id {
      assert c[|c| - 1].id == id;
    }
    if Holds(b, id) && (at < |b| ==> b[at].id != id) {
      var j := IndexOf(b, id);
      var k := if at < |b| && at < j then j - 1 else j;
      assert c[k].id == id;
    }
  }

  lemma PutUnique(b: Bucket, at: nat, x: NetworkNode)
    requires UniqueBucket(b) && (Holds(b, x.id) ==> at < |b| && b[at].id == x.id)
    ensures UniqueBucket(Put(b, at, x))
  {
    var c := Put(b, at, x);
    PutAt(b, at, x);
    forall j, k | 0 <= j < k < |c|
      ensures c[j].id != c[k].id
    {
      var o := Origin(|b|, at, j);
      assert c[j] == b[o];
      if k == |c| - 1 {
        assert at < |b| ==> o != at;
        assert Holds(b, b[o].id);
      }
    }
  }

  /** What a step does to the set of stored IDs. */
  lemma EffectHasId(t: Table, effect: Effect, id: Key)
    requires GoodEffect(t, effect)
    ensures HasId(Apply(t, effect), id) ==> HasId(t, id) || (effect.Touch? && effect.node.id == id)
  {
    if effect.Touch? {
      PutHolds(t.buckets[effect.idx], effect.at, effect.node, id);
    }
  }

  lemma TouchKeepsUnique(t: Table, effect: Effect)
    requires Unique(t) && GoodEffect(t, effect)
    requires effect.Touch? && HasId(t, effect.node.id) ==>
               effect.at < |t.buckets[effect.idx]| && t.buckets[effect.idx][effect.at].id == effect.node.id
    ensures Unique(Apply(t, effect))
  {
    hide BucketIndex, Put;
    if effect.Touch? {
      assert UniqueBucket(t.buckets[effect.idx]);
      PutUnique(t.buckets[effect.idx], effect.at, effect.node);
    }
  }

  /** The entry a step stores is new, or takes the place of its own former entry. */
  lemma EffectReplacesItself(s: State, e: Event)
    requires Inv(s) && UniqueInv(s) && Enabled(s, e)
    ensures var t, effect := s.table, EffectOf(s, e);
            effect.Touch? && HasId(t, effect.node.id) ==>
              effect.idx < KEY_BITS && effect.at < |t.buckets[effect.idx]|
              && t.buckets[effect.idx][effect.at].id == effect.node.id
  {
    if e.Finish? {
      assert PendingInv(s.table.owner, s.pending[e.tid]);
      assert !HasId(s.table, s.pending[e.tid].candidate.id);
    }
  }

  lemma PendingStaysAbsent(s: State, e: Event, tid: nat)
    requires Inv(s) && UniqueInv(s) && Enabled(s, e) && Exclusive(s, e) && tid in Next(s, e).pending
    ensures !HasId(Next(s, e).table, Next(s, e).pending[tid].candidate.id)
  {
    var p := Next(s, e).pending[tid];
    EffectIsGood(s, e);
    EffectHasId(s.table, EffectOf(s, e), p.candidate.id);
    if e.Finish? {
      assert PendingInv(s.table.owner, s.pending[e.tid]);
      assert !HasId(s.table, p.candidate.id) && s.pending[e.tid].candidate.id != p.candidate.id;
    }
  }

  lemma StepKeepsUnique(s: State, e: Event)
    requires Inv(s) && UniqueInv(s) && Enabled(s, e) && Exclusive(s, e)
    ensures UniqueInv(Next(s, e))
  {
    hide Apply, EffectOf, HasId, GoodEffect;
    EffectIsGood(s, e);
    EffectReplacesItself(s, e);
    TouchKeepsUnique(s.table, EffectOf(s, e));
    forall tid | tid in Next(s, e).pending
      ensures !HasId(Next(s, e).table, Next(s, e).pending[tid].candidate.id)
    {
      PendingStaysAbsent(s, e, tid);
    }
  }

  /** If no two Adds of one ID overlap, no interleaving ever stores an ID twice in a bucket. */
  lemma {:induction false} ExclusiveRunIsUnique(states: seq<State>, events: seq<Event>, n: nat)
    requires ExclusiveRun(states, events) && n <= |events|
    requires Inv(states[0]) && UniqueInv(states[0])
    ensures Inv(states[n]) && UniqueInv(states[n])
    decreases n
  {
    RunKeepsStateInv(states, events, n);
    if n > 0 {
      assert Exclusive(states[n - 1], events[n - 1]);
      hide Inv, UniqueInv, Next;
      ExclusiveRunIsUnique(states, events, n - 1);
      StepKeepsUnique(states[n - 1], events[n - 1]);
    }
  }

  /** ... nor anywhere in the table. */
  lemma UniqueTable(t: Table)
    requires TableInv(t) && Unique(t)
    ensures DistinctIds(multiset(Entries(t)))
  {
    FlattenDistinct(t.owner, t.buckets);
  }

  lemma PutDuplicates(b: Bucket, at: nat, x: NetworkNode)
    requires at < |b| && Holds(b, x.id) && b[at].id != x.id
    ensures !UniqueBucket(Put(b, at, x))
  {
    var c, j := Put(b, at, x), IndexOf(b, x.id);
    PutAt(b, at, x);
    var k := if at < j then j - 1 else j;
    assert Origin(|b|, at, k) == j && c[k] == b[j] && c[|c| - 1] == x && k < |c| - 1;
  }

  lemma UniqueAfterUpdate(t: Table, idx: nat, c: Bucket)
    requires Unique(t) && idx < KEY_BITS
    ensures Unique(t.(buckets := t.buckets[idx := c])) <==> UniqueBucket(c)
  {
    hide UniqueBucket;
    var t' := t.(buckets := t.buckets[idx := c]);
    assert t'.buckets[idx] == c;
    assert forall i :: 0 <= i < KEY_BITS && i != idx ==> t'.buckets[i] == t.buckets[i];
  }

  /** The second section of one Add breaks uniqueness exactly when its victim is still there, its ping failed, and
      its candidate was added by someone else meanwhile. */
  lemma FinishKeepsUniqueIff(s: State, tid: nat, alive: bool)
    requires Inv(s) && Unique(s.table) && tid in s.pending
    ensures var p := s.pending[tid];
            Unique(Next(s, Finish(tid, alive)).table)
            <==> alive || p.victim.id == p.candidate.id
                 || !HasId(s.table, p.victim.id) || !HasId(s.table, p.candidate.id)
  {
    var p := s.pending[tid];
    var idx := BucketIndex(s.table.owner, p.candidate.id);
    var b := s.table.buckets[idx];
    var t' := Next(s, Finish(tid, alive)).table;
    assert PendingInv(s.table.owner, p);
    var at := IndexOf(b, p.victim.id);
    var node := if alive then p.victim else p.candidate;
    assert UniqueBucket(b);
    assert t' == if Holds(b, p.victim.id)
                 then s.table.(buckets := s.table.buckets[idx := Put(b, at, node)])
                 else s.table;
    assert HasId(s.table, p.victim.id) == Holds(b, p.victim.id);
    assert HasId(s.table, p.candidate.id) == Holds(b, p.candidate.id);
    hide BucketIndex, Put, Next, HasId, TableInv, Unique;
    if Holds(b, p.victim.id) {
      UniqueAfterUpdate(s.table, idx, Put(b, at, node));
      if Holds(b, node.id) && b[at].id != node.id {
        PutDuplicates(b, at, node);
      } else {
        PutUnique(b, at, node);
      }
    }
  }

  /** The first section never breaks uniqueness, whatever else is in flight. */
  lemma BeginKeepsUnique(s: State, tid: nat, node: NetworkNode)
    requires Inv(s) && Unique(s.table) && tid !in s.pending
    ensures Unique(Next(s, Begin(tid, node)).table)
  {
    EffectIsGood(s, Begin(tid, node));
    TouchKeepsUnique(s.table, BeginEffect(s.table, node));
  }

  /** e is a second section whose ping failed, whose victim is still there, and whose candidate, another node, was
      added by someone else meanwhile. */
  ghost predicate AddsAgain(s: State, e: Event)
    requires Enabled(s, e)
  {
    e.Finish? && !e.alive
    && var p := s.pending[e.tid];
       p.victim.id != p.candidate.id && HasId(s.table, p.victim.id) && HasId(s.table, p.candidate.id)
  }

  lemma StepKeepsUniqueIff(s: State, e: Event)
    requires Inv(s) && Unique(s.table) && Enabled(s, e)
    ensures Unique(Next(s, e).table) <==> !AddsAgain(s, e)
  {
    if e.Begin? {
      BeginKeepsUnique(s, e.tid, e.node);
    } else {
      FinishKeepsUniqueIff(s, e.tid, e.alive);
    }
  }

  /** A run, with whatever overlaps, keeps IDs unique throughout exactly when no step of it is an AddsAgain. */
  lemma {:induction false} RunIsUniqueIff(states: seq<State>, events: seq<Event>, n: nat)
    requires Run(states, events) && Inv(states[0]) && Unique(states[0].table) && n <= |events|
    ensures (forall k :: 0 <= k <= n ==> Unique(states[k].table))
       <==> (forall k :: 0 <= k < n ==> !AddsAgain(states[k], events[k]))
    decreases n
  {
    hide Unique, AddsAgain, Inv, Next, Enabled;
    if n > 0 {
      RunIsUniqueIff(states, events, n - 1);
      RunKeepsStateInv(states, events, n - 1);
      if Unique(states[n - 1].table) {
        StepKeepsUniqueIff(states[n - 1], events[n - 1]);
        assert states[n] == Next(states[n - 1], events[n - 1]);
      } else {
        assert !forall k :: 0 <= k <= n - 1 ==> Unique(states[k].table);
      }
    }
  }
}
