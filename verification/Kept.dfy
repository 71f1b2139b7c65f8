/** What a search keeps, counted: whom a round picks, how often it keeps whom it was told about, and that nobody visited
    comes back. */
module Kept {
  import opened Keys
  import opened Tables
  import opened Search
  import opened SearchRuns
  import opened Copies
  import Closest

  // ---- Whom a round queries ----

  /** The places at which q was picked from the list, in order. */
  ghost predicate PickedAt(closest: seq<NetworkNode>, visited: set<Key>, q: seq<NetworkNode>, at: seq<nat>) {
    |at| == |q|
    && (forall k :: 0 <= k < |q| ==> at[k] < |closest| && closest[at[k]] == q[k] && q[k].id !in visited)
    && (forall k, l :: 0 <= k < l < |at| ==> at[k] < at[l])
  }

  /** No unvisited entry before place i of the list is left out. */
  ghost predicate NoneLeftOut(closest: seq<NetworkNode>, visited: set<Key>, at: seq<nat>, i: nat) {
    forall j :: 0 <= j < i && j < |closest| && closest[j].id !in visited ==> j in at
  }

  ghost predicate InOrder(closest: seq<NetworkNode>, visited: set<Key>, limit: nat, q: seq<NetworkNode>, at: seq<nat>) {
    PickedAt(closest, visited, q, at) && |q| <= limit
    && (forall k :: 0 <= k < |at| ==> NoneLeftOut(closest, visited, at, at[k]))
    && (|q| < limit ==> NoneLeftOut(closest, visited, at, |closest|))
  }

  /** A round queries the first unvisited entries in the order of the list, as many as the limit allows. */
  lemma {:induction false} PickedInOrder(closest: seq<NetworkNode>, visited: set<Key>, limit: nat)
    returns (at: seq<nat>)
    ensures InOrder(closest, visited, limit, Unvisited(closest, visited, limit), at)
    decreases |closest|
  {
    if closest == [] || limit == 0 {
      at := [];
    } else {
      var picks := closest[0].id !in visited;
      var less := if picks then limit - 1 else limit;
      var rest := PickedInOrder(closest[1..], visited, less);
      var q := Unvisited(closest[1..], visited, less);
      at := if picks then [0] + Moved(rest) else Moved(rest);
      if picks {
        PickFirst(closest, visited, less, q, rest);
      } else {
        PassFirst(closest, visited, less, q, rest);
      }
    }
  }

  ghost function Moved(at: seq<nat>): (moved: seq<nat>)
    ensures |moved| == |at| && forall k :: 0 <= k < |at| ==> moved[k] == at[k] + 1
  {
    seq(|at|, k requires 0 <= k < |at| => at[k] + 1)
  }

  lemma OneMore(closest: seq<NetworkNode>, visited: set<Key>, rest: seq<nat>, at: seq<nat>, i: nat)
    requires closest != [] && NoneLeftOut(closest[1..], visited, rest, i)
    requires at == if closest[0].id !in visited then [0] + Moved(rest) else Moved(rest)
    ensures NoneLeftOut(closest, visited, at, i + 1)
  {
    forall j | 0 <= j < i + 1 && j < |closest| && closest[j].id !in visited
      ensures j in at
    {
      if j == 0 {
        assert at[0] == 0;
      } else {
        assert closest[1..][j - 1] == closest[j];
        var k :| 0 <= k < |rest| && rest[k] == j - 1;
        assert Moved(rest)[k] == j;
        assert j in Moved(rest);
      }
    }
  }

  lemma PassFirst(closest: seq<NetworkNode>, visited: set<Key>, limit: nat, q: seq<NetworkNode>, rest: seq<nat>)
    requires closest != [] && closest[0].id in visited && InOrder(closest[1..], visited, limit, q, rest)
    ensures InOrder(closest, visited, limit, q, Moved(rest))
  {
    var at := Moved(rest);
    forall k | 0 <= k < |at|
      ensures NoneLeftOut(closest, visited, at, at[k])
    {
      OneMore(closest, visited, rest, at, rest[k]);
    }
    if |q| < limit {
      OneMore(closest, visited, rest, at, |closest[1..]|);
    }
  }

  lemma PickFirst(closest: seq<NetworkNode>, visited: set<Key>, limit: nat, q: seq<NetworkNode>, rest: seq<nat>)
    requires closest != [] && closest[0].id !in visited && InOrder(closest[1..], visited, limit, q, rest)
    ensures InOrder(closest, visited, limit + 1, [closest[0]] + q, [0] + Moved(rest))
  {
    var at := [0] + Moved(rest);
    forall k | 0 <= k < |at|
      ensures NoneLeftOut(closest, visited, at, at[k])
    {
      if k > 0 {
        assert at[k] == rest[k - 1] + 1;
        OneMore(closest, visited, rest, at, rest[k - 1]);
      }
    }
    if |q| < limit {
      OneMore(closest, visited, rest, at, |closest[1..]|);
    }
    FirstPickedAt(closest, visited, q, rest);
  }

  lemma FirstPickedAt(closest: seq<NetworkNode>, visited: set<Key>, q: seq<NetworkNode>, rest: seq<nat>)
    requires closest != [] && closest[0].id !in visited && PickedAt(closest[1..], visited, q, rest)
    ensures PickedAt(closest, visited, [closest[0]] + q, [0] + Moved(rest))
  {
    var at, q' := [0] + Moved(rest), [closest[0]] + q;
    forall k | 0 <= k < |q'|
      ensures at[k] < |closest| && closest[at[k]] == q'[k] && q'[k].id !in visited
    {
      assert k > 0 ==> at[k] == rest[k - 1] + 1 && q'[k] == q[k - 1];
    }
    forall k, l | 0 <= k < l < |at|
      ensures at[k] < at[l]
    {
      assert at[l] == rest[l - 1] + 1;
      assert k > 0 ==> at[k] == rest[k - 1] + 1;
    }
  }

  // ---- What a round keeps ----

  /** Of one answer a node is kept as often as it was named, unless it is the searcher or marked; while its mark is
      being set it may be kept fewer times. */
  lemma {:induction false} AcceptedCount(self: Key, known: set<Key>, marking: set<Key>, res: seq<NetworkNode>,
                                         late: seq<bool>, r: NetworkNode)
    requires |late| == |res|
    ensures var kept := multiset(Accepted(self, known, marking, res, late))[r];
            if r.id == self || r.id in known then kept == 0
            else if r.id in marking then kept <= multiset(res)[r]
            else kept == multiset(res)[r]
    decreases |res|
  {
    if res != [] {
      var n := |res| - 1;
      AcceptedCount(self, known, marking, res[..n], late[..n], r);
      assert res == res[..n] + [res[n]];
    }
  }

  /** How often the first count answers name r. */
  ghost function TimesNamed(answers: seq<Answer>, count: nat, r: NetworkNode): nat
    requires count <= |answers|
  {
    if count == 0 then 0
    else TimesNamed(answers, count - 1, r)
         + if answers[count - 1].Nodes? then multiset(answers[count - 1].res)[r] else 0
  }

  /** How kept compares with named: nothing of a node that is out is kept; all of any other, or, if it is queried, all
      at most. */
  predicate Fits(out: bool, queried: bool, kept: nat, named: nat) {
    if out then kept == 0 else if queried then kept <= named else kept == named
  }

  lemma TimesNamedSnoc(answers: seq<Answer>, count: nat, r: NetworkNode)
    requires 0 < count <= |answers|
    ensures TimesNamed(answers, count, r)
         == TimesNamed(answers, count - 1, r)
            + if answers[count - 1].Nodes? then multiset(answers[count - 1].res)[r] else 0
  {
  }

  lemma GatheredNone(self: Key, visited: set<Key>, q: seq<NetworkNode>, log: RoundLog, r: NetworkNode)
    requires |q| == |log.answers| == |log.late|
    ensures multiset(Gathered(self, visited, q, log, 0))[r] == 0 == TimesNamed(log.answers, 0, r)
  {
  }

  /** Of all answers of a round a node is kept as often as it was named if it is neither the searcher, nor visited, nor
      queried in this round; never if it is the searcher or was visited before. */
  lemma {:induction false} GatheredCount(self: Key, visited: set<Key>, q: seq<NetworkNode>, log: RoundLog, count: nat,
                                         r: NetworkNode)
    requires count <= |q| == |log.answers| == |log.late|
    requires forall i :: 0 <= i < |q| && log.answers[i].Nodes? ==> |log.late[i]| == |log.answers[i].res|
    ensures Fits(r.id == self || r.id in visited, r.id in Ids(q),
                 multiset(Gathered(self, visited, q, log, count))[r], TimesNamed(log.answers, count, r))
    decreases count
  {
    hide AcceptedFrom, Gathered, Ids, TimesNamed;
    if count == 0 {
      GatheredNone(self, visited, q, log, r);
    } else {
      GatheredCount(self, visited, q, log, count - 1, r);
      FromOneCount(self, visited, q, count - 1, log.answers[count - 1], log.late[count - 1], r);
      GatheredSnoc(self, visited, q, log, count, r);
      TimesNamedSnoc(log.answers, count, r);
    }
  }

  lemma GatheredSnoc(self: Key, visited: set<Key>, q: seq<NetworkNode>, log: RoundLog, count: nat, r: NetworkNode)
    requires 0 < count <= |q| == |log.answers| == |log.late|
    ensures multiset(Gathered(self, visited, q, log, count))[r]
         == multiset(Gathered(self, visited, q, log, count - 1))[r]
            + multiset(AcceptedFrom(self, visited, q, count - 1, log.answers[count - 1], log.late[count - 1]))[r]
  {
    hide AcceptedFrom;
  }

  lemma FromOneCount(self: Key, visited: set<Key>, q: seq<NetworkNode>, i: nat, answer: Answer, late: seq<bool>,
                     r: NetworkNode)
    requires i < |q| && (answer.Nodes? ==> |late| == |answer.res|)
    ensures Fits(r.id == self || r.id in visited, r.id in Ids(q),
                 multiset(AcceptedFrom(self, visited, q, i, answer, late))[r],
                 if answer.Nodes? then multiset(answer.res)[r] else 0)
  {
    assert forall m :: m in q[..i + 1] || m in q[i + 1..] ==> m in q;
    if answer.Nodes? {
      AcceptedCount(self, visited + Ids(q[..i + 1]), Ids(q[i + 1..]), answer.res, late, r);
    }
  }

  /** From the answer to query i nobody is kept who was visited before or is one of queries 0 to i. */
  lemma KeptWereUnmarked(self: Key, visited: set<Key>, q: seq<NetworkNode>, i: nat, answer: Answer, late: seq<bool>,
                         n: NetworkNode)
    requires i < |q| && n in AcceptedFrom(self, visited, q, i, answer, late)
    ensures n.id != self && n.id !in visited && n.id !in Ids(q[..i + 1])
  {
    AcceptedIff(self, visited + Ids(q[..i + 1]), Ids(q[i + 1..]), answer.res, late, n);
  }

  // ---- Nobody visited comes back ----

  lemma {:induction false} CountPermuted(a: seq<NetworkNode>, b: seq<NetworkNode>, id: Key)
    requires multiset(a) == multiset(b)
    ensures Count(a, id) == Count(b, id)
    decreases |a|
  {
    assert |multiset(a)| == |a| && |multiset(b)| == |b|;
    if a != [] {
      var n := |a| - 1;
      assert a[n] in multiset(b);
      var k :| 0 <= k < |b| && b[k] == a[n];
      assert a == a[..n] + [a[n]];
      CountRemove(b, k, id);
      var rest := b[..k] + b[k + 1..];
      assert multiset(a) == multiset(a[..n]) + multiset{a[n]};
      assert multiset(rest) == multiset(b) - multiset{a[n]};
      assert multiset(a[..n]) == multiset(a) - multiset{a[n]};
      CountPermuted(a[..n], b[..k] + b[k + 1..], id);
    }
  }

  lemma CountRemove(b: seq<NetworkNode>, k: nat, id: Key)
    requires k < |b|
    ensures Count(b, id) == Count(b[..k] + b[k + 1..], id) + if b[k].id == id then 1 else 0
    ensures multiset(b) == multiset(b[..k] + b[k + 1..]) + multiset{b[k]}
  {
    var x, y := b[..k], b[k + 1..];
    assert b == x + ([b[k]] + y);
    CountConcat(x, [b[k]] + y, id);
    CountConcat([b[k]], y, id);
    CountConcat(x, y, id);
    CountOne(b[k], id);
    hide Count;
  }

  lemma {:induction false} CountNone(s: seq<NetworkNode>, id: Key)
    requires forall n :: n in s ==> n.id != id
    ensures Count(s, id) == 0
  {
    if s != [] {
      CountNone(s[..|s| - 1], id);
    }
  }

  lemma RoundBringsNoneBack(self: Key, target: Key, s: SearchState, log: RoundLog, id: Key)
    requires GoodRound(self, target, s, log) && id in s.visited
    ensures Count(Advance(s, log).closest, id) <= Count(s.closest, id)
  {
    var q := Queried(s);
    var more := Gathered(self, s.visited, q, log, |q|);
    NoneBack(self, s.visited, q, log, id);
    hide Gathered, Queried, Count;
    CountNone(more, id);
    CountConcat(s.closest, more, id);
    CountPermuted(log.merged, s.closest + more, id);
    CountCut(log.merged, id);
  }

  lemma NoneBack(self: Key, visited: set<Key>, q: seq<NetworkNode>, log: RoundLog, id: Key)
    requires |q| == |log.answers| == |log.late| && id in visited
    requires forall i :: 0 <= i < |q| && log.answers[i].Nodes? ==> |log.late[i]| == |log.answers[i].res|
    ensures forall n :: n in Gathered(self, visited, q, log, |q|) ==> n.id != id
  {
    var more := Gathered(self, visited, q, log, |q|);
    hide Gathered;
    forall n | n in more
      ensures n.id != id
    {
      GatheredCount(self, visited, q, log, |q|, n);
      assert n in multiset(more);
    }
  }

  lemma CountCut(merged: seq<NetworkNode>, id: Key)
    ensures Count(merged[..Min(K, |merged|)], id) <= Count(merged, id)
  {
    var k := Min(K, |merged|);
    assert merged == merged[..k] + merged[k..];
    CountConcat(merged[..k], merged[k..], id);
  }

  lemma RoundAt(self: Key, target: Key, states: seq<SearchState>, logs: seq<RoundLog>, n: nat)
    requires Rounds(self, target, states, logs) && n < |logs|
    ensures |states| == |logs| + 1
    ensures GoodRound(self, target, states[n], logs[n]) && states[n + 1] == Advance(states[n], logs[n])
  {
    hide GoodRound, Advance;
  }

  /** Once an ID has been visited the list never again has more entries with it. */
  lemma {:induction false} VisitedDoNotMultiply(self: Key, target: Key, states: seq<SearchState>, logs: seq<RoundLog>,
                                                m: nat, n: nat, id: Key)
    requires Rounds(self, target, states, logs) && m <= n <= |logs| && id in states[m].visited
    ensures Count(states[n].closest, id) <= Count(states[m].closest, id)
    decreases n
  {
    hide Rounds, GoodRound, Advance, Count;
    if m < n {
      RoundAt(self, target, states, logs, n - 1);
      VisitedDoNotMultiply(self, target, states, logs, m, n - 1, id);
      VisitedGrows(self, target, states, logs, m, n - 1);
      RoundBringsNoneBack(self, target, states[n - 1], logs[n - 1], id);
    }
  }

  // ---- The first list ----

  lemma WithoutSnoc(nodes: seq<NetworkNode>, id: Key)
    requires nodes != []
    ensures var n := |nodes| - 1;
            WithoutId(nodes, id) == WithoutId(nodes[..n], id) + if nodes[n].id != id then [nodes[n]] else []
  {
  }

  lemma WithoutNone(id: Key)
    ensures WithoutId([], id) == []
  {
  }

  lemma {:induction false} NothingToRemove(nodes: seq<NetworkNode>, id: Key)
    requires forall i :: 0 <= i < |nodes| ==> nodes[i].id != id
    ensures WithoutId(nodes, id) == nodes
  {
    hide WithoutId;
    if nodes == [] {
      WithoutNone(id);
    } else {
      var n := |nodes| - 1;
      WithoutSnoc(nodes, id);
      NothingToRemove(nodes[..n], id);
      assert nodes[..n] + [nodes[n]] == nodes;
    }
  }

  /** The first list is what FindClosest answers, whole: min(K, all) of the searcher's entries, and it covers every one
      of them. */
  lemma SeedIsAnswer(own: Table, target: Key, s: SearchState)
    requires TableInv(own) && Seeded(own, target, s)
    ensures IsFindClosest(Entries(own), target, K, s.closest) && |s.closest| == Min(K, |Entries(own)|)
    ensures forall e :: e in Entries(own) ==> Covered(target, s, e.id)
  {
    var r: seq<NetworkNode> :| IsFindClosest(Entries(own), target, K, r) && s.closest == WithoutId(r, own.owner);
    forall n | n in r
      ensures n.id != own.owner
    {
      Closest.FindClosestMembers(Entries(own), target, K, r, n);
      EntryBucket(own, n);
    }
    NothingToRemove(r, own.owner);
    Closest.FindClosestIsBest(Entries(own), target, K, r);
    forall e | e in Entries(own)
      ensures Covered(target, s, e.id)
    {
      Closest.FindClosestMembers(Entries(own), target, K, r, e);
    }
  }

  /** Every entry of the searcher's table stays covered, at every round head. */
  lemma {:induction false} TableStaysCovered(own: Table, target: Key, states: seq<SearchState>, logs: seq<RoundLog>,
                                             n: nat, e: NetworkNode)
    requires TableInv(own) && Rounds(own.owner, target, states, logs) && Seeded(own, target, states[0])
    requires n <= |logs| && e in Entries(own)
    ensures SearchInv(own.owner, target, states[n]) && Covered(target, states[n], e.id)
    decreases n
  {
    if n == 0 {
      SeedKeepsInv(own, target, states[0]);
      SeedIsAnswer(own, target, states[0]);
    } else {
      TableStaysCovered(own, target, states, logs, n - 1, e);
      assert GoodRound(own.owner, target, states[n - 1], logs[n - 1]);
      assert states[n] == Advance(states[n - 1], logs[n - 1]);
      RoundKeepsInv(own.owner, target, states[n - 1], logs[n - 1]);
      RoundKeepsCovered(own.owner, target, states[n - 1], logs[n - 1], e.id);
    }
  }
}
