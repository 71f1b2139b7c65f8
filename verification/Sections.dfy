/** What each locked section of Add does, told by the positions of IDs in the bucket, and what that means for recency:
    which step touched an ID last, and whom a sequence of Adds pings. */
module Sections {
  import opened Keys
  import opened Options
  import opened Tables
  import opened Adds
  import opened AddHistory

  /** j is the first place of id in the bucket. */
  ghost predicate IsFirst(b: Bucket, j: nat, id: Key) {
    j < |b| && b[j].id == id && forall k :: 0 <= k < j ==> b[k].id != id
  }

  ghost predicate IsAbsent(b: Bucket, id: Key) {
    forall k :: 0 <= k < |b| ==> b[k].id != id
  }

  /** From b to b' the entry at j leaves, the later ones move up, and x comes last. */
  ghost predicate MovedToTail(b: Bucket, b': Bucket, j: nat, x: NetworkNode) {
    j < |b| == |b'| && b'[|b| - 1] == x
    && forall k :: 0 <= k < |b| - 1 ==> b'[k] == b[if k < j then k else k + 1]
  }

  ghost predicate OthersUntouched(t: Table, t': Table, i: nat) {
    t'.owner == t.owner && forall k :: 0 <= k < KEY_BITS && k != i ==> t'.buckets[k] == t.buckets[k]
  }

  /** The first section: the owner is ignored; a stored ID moves to the tail with its new contact data; a bucket with
      room gets the contact at its tail; a full one is left alone while its head is pinged. */
  lemma BeginLaw(s: State, tid: nat, node: NetworkNode)
    requires Inv(s) && tid !in s.pending
    ensures var s', i := Next(s, Begin(tid, node)), BucketIndex(s.table.owner, node.id);
            var b, b' := s.table.buckets[i], s'.table.buckets[i];
            OthersUntouched(s.table, s'.table, i)
            && (node.id == s.table.owner ==> s' == s)
            && (node.id != s.table.owner ==>
                  (forall j :: IsFirst(b, j, node.id) ==> MovedToTail(b, b', j, node) && s'.pending == s.pending)
                  && (IsAbsent(b, node.id) && |b| < K ==> b' == b + [node] && s'.pending == s.pending)
                  && (IsAbsent(b, node.id) && |b| == K ==>
                        b' == b && s'.pending == s.pending[tid := Pending(node, b[0])]))
  {
    var i := BucketIndex(s.table.owner, node.id);
    var b := s.table.buckets[i];
    assert |b| <= K by {
      assert BucketInv(s.table.owner, i, b);
    }
    NextBucket(s, Begin(tid, node), i);
    BeginTables(s, tid, node);
    BeginCases(s.table, node);
    assert EffectOf(s, Begin(tid, node)) == BeginEffect(s.table, node);
    forall j | IsFirst(b, j, node.id)
      ensures MovedToTail(b, Put(b, j, node), j, node)
    {
      PutMoves(b, j, node);
    }
    hide Next, BucketIndex, BeginEffect, BeginPending, EffectOf, Inv, Put, MovedToTail, IsFirst, OthersUntouched;
    if IsAbsent(b, node.id) && |b| < K {
      PutMoves(b, |b|, node);
    }
  }

  lemma PutMoves(b: Bucket, at: nat, x: NetworkNode)
    ensures at < |b| ==> MovedToTail(b, Put(b, at, x), at, x)
    ensures at >= |b| ==> Put(b, at, x) == b + [x]
  {
    PutAt(b, at, x);
  }

  lemma FirstIsIndex(b: Bucket, id: Key)
    ensures forall j :: IsFirst(b, j, id) ==> Holds(b, id) && IndexOf(b, id) == j
    ensures IsAbsent(b, id) ==> !Holds(b, id) && IndexOf(b, id) == |b|
  {
  }

  lemma BeginCases(t: Table, node: NetworkNode)
    ensures var i := BucketIndex(t.owner, node.id);
            var b := t.buckets[i];
            node.id != t.owner ==>
              (forall j :: IsFirst(b, j, node.id) ==>
                             BeginEffect(t, node) == Touch(i, j, node) && BeginPending(t, node) == None)
              && (IsAbsent(b, node.id) && |b| < K ==>
                    BeginEffect(t, node) == Touch(i, |b|, node) && BeginPending(t, node) == None)
              && (IsAbsent(b, node.id) && |b| == K ==>
                    BeginEffect(t, node) == Nothing && BeginPending(t, node) == Some(Pending(node, b[0])))
  {
    FirstIsIndex(t.buckets[BucketIndex(t.owner, node.id)], node.id);
    hide BucketIndex;
  }

  lemma BeginTables(s: State, tid: nat, node: NetworkNode)
    requires Inv(s) && tid !in s.pending
    ensures OthersUntouched(s.table, Next(s, Begin(tid, node)).table, BucketIndex(s.table.owner, node.id))
    ensures Next(s, Begin(tid, node)).pending
         == if BeginPending(s.table, node).Some? then s.pending[tid := BeginPending(s.table, node).value] else s.pending
    ensures node.id == s.table.owner ==> Next(s, Begin(tid, node)) == s
  {
  }

  /** The second section: a victim that is still there leaves its place, and at the tail comes the victim again if it
      answered its ping, or else the candidate; if it is gone nothing happens. */
  lemma FinishLaw(s: State, tid: nat, alive: bool)
    requires Inv(s) && tid in s.pending
    ensures var s', p := Next(s, Finish(tid, alive)), s.pending[tid];
            var i := BucketIndex(s.table.owner, p.victim.id);
            var b, b' := s.table.buckets[i], s'.table.buckets[i];
            s'.pending == s.pending - {tid} && OthersUntouched(s.table, s'.table, i)
            && (forall j :: IsFirst(b, j, p.victim.id) ==>
                              MovedToTail(b, b', j, if alive then p.victim else p.candidate))
            && (IsAbsent(b, p.victim.id) ==> s'.table == s.table)
  {
    var p := s.pending[tid];
    assert PendingInv(s.table.owner, p);
    var i := BucketIndex(s.table.owner, p.victim.id);
    var b := s.table.buckets[i];
    var x := if alive then p.victim else p.candidate;
    NextBucket(s, Finish(tid, alive), i);
    FinishTables(s, tid, alive);
    FirstIsIndex(b, p.victim.id);
    assert EffectOf(s, Finish(tid, alive))
        == if Holds(b, p.victim.id) then Touch(i, IndexOf(b, p.victim.id), x) else Nothing;
    forall j | IsFirst(b, j, p.victim.id)
      ensures MovedToTail(b, Put(b, j, x), j, x)
    {
      PutMoves(b, j, x);
    }
    hide Next, BucketIndex, EffectOf, Inv, Put, MovedToTail, IsFirst, OthersUntouched, IsAbsent, Holds, IndexOf;
  }

  lemma FinishTables(s: State, tid: nat, alive: bool)
    requires Inv(s) && tid in s.pending
    ensures var s', i := Next(s, Finish(tid, alive)), BucketIndex(s.table.owner, s.pending[tid].victim.id);
            s'.pending == s.pending - {tid} && OthersUntouched(s.table, s'.table, i)
            && (IsAbsent(s.table.buckets[i], s.pending[tid].victim.id) ==> s'.table == s.table)
  {
    assert PendingInv(s.table.owner, s.pending[tid]);
  }

  // ---- Which step touched an ID last ----

  /** What the event says it touches: the contact a first section stores or refreshes; after a ping the victim that
      answered it, or the candidate that takes its place. */
  ghost predicate Touches(s: State, e: Event, id: Key)
    requires Enabled(s, e)
  {
    match e
    case Begin(_, node) =>
      var b := s.table.buckets[BucketIndex(s.table.owner, node.id)];
      id == node.id != s.table.owner && (|b| < K || exists j :: IsFirst(b, j, node.id))
    case Finish(tid, alive) =>
      var p := s.pending[tid];
      id == (if alive then p.victim.id else p.candidate.id)
      && exists j :: IsFirst(s.table.buckets[BucketIndex(s.table.owner, p.victim.id)], j, p.victim.id)
  }

  lemma EffectTouches(s: State, e: Event, id: Key)
    requires Inv(s) && Enabled(s, e)
    ensures Touches(s, e, id) <==> EffectOf(s, e).Touch? && EffectOf(s, e).node.id == id
  {
    match e
    case Begin(_, node) =>
      var b := s.table.buckets[BucketIndex(s.table.owner, node.id)];
      assert Holds(b, node.id) ==> IsFirst(b, IndexOf(b, node.id), node.id);
    case Finish(tid, alive) =>
      var p := s.pending[tid];
      assert PendingInv(s.table.owner, p);
      var b := s.table.buckets[BucketIndex(s.table.owner, p.victim.id)];
      assert Holds(b, p.victim.id) ==> IsFirst(b, IndexOf(b, p.victim.id), p.victim.id);
  }

  /** The last touch of an ID is the last event that touches it. */
  lemma LastTouchIs(states: seq<State>, events: seq<Event>, n: nat, id: Key)
    requires Run(states, events) && Inv(states[0]) && n < |events|
    ensures LastTouch(states, events, n + 1, id)
         == if Touches(states[n], events[n], id) then Some(n) else LastTouch(states, events, n, id)
  {
    RunKeepsStateInv(states, events, n);
    EffectTouches(states[n], events[n], id);
  }

  /** An entry that answers its ping is refreshed: it stands at the tail, last touched now. */
  lemma AnsweredPingRefreshes(states: seq<State>, events: seq<Event>, n: nat, j: nat)
    requires Run(states, events) && Inv(states[0]) && n < |events| && events[n].Finish? && events[n].alive
    requires var p := states[n].pending[events[n].tid];
             IsFirst(states[n].table.buckets[BucketIndex(states[n].table.owner, p.victim.id)], j, p.victim.id)
    ensures var p := states[n].pending[events[n].tid];
            var i := BucketIndex(states[n].table.owner, p.victim.id);
            MovedToTail(states[n].table.buckets[i], states[n + 1].table.buckets[i], j, p.victim)
            && LastTouch(states, events, n + 1, p.victim.id) == Some(n)
  {
    RunKeepsStateInv(states, events, n);
    FinishLaw(states[n], events[n].tid, true);
    LastTouchIs(states, events, n, states[n].pending[events[n].tid].victim.id);
  }

  // ---- Whom a sequence of Adds pings ----

  function Rotated(b: Bucket, n: nat): (r: Bucket)
    requires n <= |b|
    ensures |r| == |b|
  {
    b[n..] + b[..n]
  }

  /** Adds one after another, every pinged entry answering. */
  function AddAll(t: Table, nodes: seq<NetworkNode>): Table {
    if nodes == [] then t else AddSerially(AddAll(t, nodes[..|nodes| - 1]), nodes[|nodes| - 1], true)
  }

  lemma RotateOnce(b: Bucket, n: nat, b': Bucket)
    requires n < |b| && MovedToTail(Rotated(b, n), b', 0, b[n])
    ensures b' == Rotated(b, n + 1)
  {
    var r := Rotated(b, n);
    forall k | 0 <= k < |b|
      ensures b'[k] == Rotated(b, n + 1)[k]
    {
      assert k < |b| - 1 ==> b'[k] == r[k + 1];
    }
  }

  lemma RotatedIsAbsent(b: Bucket, n: nat, id: Key)
    requires n <= |b| && IsAbsent(b, id)
    ensures IsAbsent(Rotated(b, n), id)
  {
    var r := Rotated(b, n);
    forall k | 0 <= k < |r|
      ensures r[k].id != id
    {
      assert r[k] == b[if k < |b| - n then n + k else k - (|b| - n)];
    }
  }

  lemma AddToFull(t: Table, node: NetworkNode, i: nat)
    requires TableInv(t) && node.id != t.owner && i == BucketIndex(t.owner, node.id)
    requires |t.buckets[i]| == K && IsAbsent(t.buckets[i], node.id)
    ensures BeginPending(t, node) == Some(Pending(node, t.buckets[i][0]))
    ensures AddSerially(t, node, true).owner == t.owner
    ensures MovedToTail(t.buckets[i], AddSerially(t, node, true).buckets[i], 0, t.buckets[i][0])
  {
    var s := State(t, map[]);
    assert BucketInv(t.owner, i, t.buckets[i]);
    BeginLaw(s, 0, node);
    StepKeepsInv(s, Begin(0, node));
    var s1 := Next(s, Begin(0, node));
    assert s1.pending[0] == Pending(node, t.buckets[i][0]);
    FinishLaw(s1, 0, true);
    SerialAddIsARun(s, 0, node, true);
    assert IsFirst(t.buckets[i], 0, t.buckets[i][0].id);
    assert s1.table.buckets[i] == t.buckets[i];
    hide Next, AddSerially, BucketIndex, BeginPending;
  }

  /** While all answer, the Adds of absent contacts to a full bucket ping its entries in turn, each once before any is
      pinged again: after n of them the bucket is rotated by n places, and the next Add pings what was entry n. */
  lemma {:induction false} PingsTakeTurns(t: Table, i: nat, nodes: seq<NetworkNode>, next: NetworkNode)
    requires TableInv(t) && i < KEY_BITS && |t.buckets[i]| == K && |nodes| <= K
    requires forall n :: n in nodes || n == next ==>
               n.id != t.owner && BucketIndex(t.owner, n.id) == i && IsAbsent(t.buckets[i], n.id)
    ensures var t' := AddAll(t, nodes);
            TableInv(t') && t'.owner == t.owner && t'.buckets[i] == Rotated(t.buckets[i], |nodes|)
            && (|nodes| < K ==> BeginPending(t', next) == Some(Pending(next, t.buckets[i][|nodes|])))
    decreases |nodes|
  {
    var b, n := t.buckets[i], |nodes|;
    if n > 0 {
      PingsTakeTurns(t, i, nodes[..n - 1], nodes[n - 1]);
      var t1 := AddAll(t, nodes[..n - 1]);
      RotatedIsAbsent(b, n - 1, nodes[n - 1].id);
      AddToFull(t1, nodes[n - 1], i);
      SerialAddKeepsInv(t1, nodes[n - 1], true);
      assert Rotated(b, n - 1)[0] == b[n - 1];
      RotateOnce(b, n - 1, AddAll(t, nodes).buckets[i]);
    } else {
      assert Rotated(b, 0) == b;
    }
    if n < K {
      RotatedIsAbsent(b, n, next.id);
      AddToFull(AddAll(t, nodes), next, i);
      assert Rotated(b, n)[0] == b[n];
    }
  }
}
