/** What holds at the head of every round of iterativeSearch, whatever the network answers. */
module SearchRuns {
  import opened Bits
  import opened Keys
  import opened Tables
  import opened Search
  import Closest

  // ---- Sorting and truncating ----

  /** If at least count entries of a sorted list are within bound, so is the one at position count - 1. */
  lemma KthWithin(part: seq<NetworkNode>, sorted: seq<NetworkNode>, bound: nat, target: Key)
    requires multiset(part) <= multiset(sorted) && Ascending(sorted, target) && part != []
    requires forall n :: n in part ==> GetKeyDistance(n.id, target) <= bound
    ensures |part| <= |sorted| && GetKeyDistance(sorted[|part| - 1].id, target) <= bound
  {
    Closest.SubsetSize(multiset(part), multiset(sorted));
    assert |multiset(part)| == |part| && |multiset(sorted)| == |sorted|;
    var k := |part| - 1;
    assert |multiset(sorted[..k])| == k;
    if GetKeyDistance(sorted[k].id, target) > bound {
      Closest.MultisetSplit(sorted, k);
      forall x | x in multiset(part)
        ensures multiset(part)[x] <= multiset(sorted[..k])[x]
      {
        assert x in part;
        NotInTail(sorted, k, x, target);
        assert multiset(sorted[k..])[x] == 0;
        assert (multiset(sorted) - multiset(sorted[..k]))[x] == 0;
      }
      Closest.SubsetSize(multiset(part), multiset(sorted[..k]));
    }
  }

  lemma NotInTail(sorted: seq<NetworkNode>, k: nat, x: NetworkNode, target: Key)
    requires k < |sorted| && Ascending(sorted, target)
    requires GetKeyDistance(x.id, target) < GetKeyDistance(sorted[k].id, target)
    ensures x !in sorted[k..]
  {
    forall i | k <= i < |sorted|
      ensures sorted[i] != x
    {
      assert GetKeyDistance(sorted[k].id, target) <= GetKeyDistance(sorted[i].id, target);
    }
  }

  /** Everything in a list that is sorted and cut at K is covered by the cut. */
  lemma CutCovers(merged: seq<NetworkNode>, s: SearchState, target: Key, n: NetworkNode)
    requires Ascending(merged, target) && s.closest == merged[..Min(K, |merged|)] && n in merged
    ensures Covered(target, s, n.id)
  {
    var i :| 0 <= i < |merged| && merged[i] == n;
    if i < K {
      assert s.closest[i] == n;
    } else {
      assert s.closest[K - 1] == merged[K - 1];
    }
  }

  /** A full list that is merged into a longer one, sorted and cut again is full of entries no farther than its last. */
  lemma FullStaysFull(closest: seq<NetworkNode>, merged: seq<NetworkNode>, target: Key)
    requires Ascending(closest, target) && |closest| == K && Ascending(merged, target)
    requires multiset(closest) <= multiset(merged)
    ensures |merged| >= K
    ensures GetKeyDistance(merged[K - 1].id, target) <= GetKeyDistance(closest[K - 1].id, target)
  {
    forall n | n in closest
      ensures GetKeyDistance(n.id, target) <= GetKeyDistance(closest[K - 1].id, target)
    {
      var i :| 0 <= i < K && closest[i] == n;
    }
    KthWithin(closest, merged, GetKeyDistance(closest[K - 1].id, target), target);
  }

  lemma {:induction false} AcceptedIff(self: Key, known: set<Key>, marking: set<Key>, res: seq<NetworkNode>,
                                       late: seq<bool>, n: NetworkNode)
    requires |late| == |res|
    ensures n in Accepted(self, known, marking, res, late)
      <==> exists j :: 0 <= j < |res| && res[j] == n && Accepts(self, known, marking, res[j], late[j])
  {
    if res != [] {
      var k := |res| - 1;
      AcceptedIff(self, known, marking, res[..k], late[..k], n);
      if exists j :: 0 <= j < |res| && res[j] == n && Accepts(self, known, marking, res[j], late[j]) {
        var j :| 0 <= j < |res| && res[j] == n && Accepts(self, known, marking, res[j], late[j]);
        assert j < k ==> res[..k][j] == n && late[..k][j] == late[j];
      }
      if exists j :: 0 <= j < k && res[..k][j] == n && Accepts(self, known, marking, res[..k][j], late[..k][j]) {
        var j :| 0 <= j < k && res[..k][j] == n && Accepts(self, known, marking, res[..k][j], late[..k][j]);
        assert res[j] == n && late[j] == late[..k][j];
      }
    }
  }

  lemma {:induction false} GatheredFrom(self: Key, visited: set<Key>, q: seq<NetworkNode>, log: RoundLog, count: nat,
                                        n: NetworkNode)
    requires count <= |q| == |log.answers| == |log.late|
    ensures n in Gathered(self, visited, q, log, count)
      <==> exists i :: 0 <= i < count && n in AcceptedFrom(self, visited, q, i, log.answers[i], log.late[i])
    decreases count
  {
    if count > 0 {
      GatheredFrom(self, visited, q, log, count - 1, n);
    }
  }

  /** What a round adds was named in it and is not the searcher. */
  lemma GatheredIsNamed(self: Key, target: Key, s: SearchState, log: RoundLog, n: NetworkNode)
    requires GoodRound(self, target, s, log)
    requires n in Gathered(self, s.visited, Queried(s), log, |Queried(s)|)
    ensures n.id in Named(self, log)
    ensures exists i :: 0 <= i < |log.answers| && log.answers[i].Nodes? && n in log.answers[i].res
  {
    var q := Queried(s);
    GatheredFrom(self, s.visited, q, log, |q|, n);
    var i :| 0 <= i < |q| && n in AcceptedFrom(self, s.visited, q, i, log.answers[i], log.late[i]);
    AcceptedIff(self, s.visited + Ids(q[..i + 1]), Ids(q[i + 1..]), log.answers[i].res, log.late[i], n);
  }

  /** Whatever a round was told about is added, unless it is the searcher, was visited before, or is queried now. */
  lemma NamedIsGathered(self: Key, target: Key, s: SearchState, log: RoundLog, i: nat, n: NetworkNode)
    requires GoodRound(self, target, s, log) && i < |log.answers| && log.answers[i].Nodes? && n in log.answers[i].res
    requires n.id != self && n.id !in s.visited && n.id !in Ids(Queried(s))
    ensures n in Gathered(self, s.visited, Queried(s), log, |Queried(s)|)
  {
    var q := Queried(s);
    var known, marking := s.visited + Ids(q[..i + 1]), Ids(q[i + 1..]);
    var j :| 0 <= j < |log.answers[i].res| && log.answers[i].res[j] == n;
    assert forall m :: m in q[..i + 1] || m in q[i + 1..] ==> m in q;
    assert Accepts(self, known, marking, n, log.late[i][j]);
    AcceptedIff(self, known, marking, log.answers[i].res, log.late[i], n);
    GatheredFrom(self, s.visited, q, log, |q|, n);
  }

  // ---- One round ----

  lemma MergedMembers(self: Key, target: Key, s: SearchState, log: RoundLog, n: NetworkNode)
    requires GoodRound(self, target, s, log)
    ensures n in log.merged <==> n in s.closest || n in Gathered(self, s.visited, Queried(s), log, |Queried(s)|)
  {
    var all := s.closest + Gathered(self, s.visited, Queried(s), log, |Queried(s)|);
    assert n in log.merged <==> n in multiset(log.merged);
    assert n in all <==> n in multiset(all);
  }

  lemma AdvanceExcludesSelf(self: Key, target: Key, s: SearchState, log: RoundLog, n: NetworkNode)
    requires SearchInv(self, target, s) && GoodRound(self, target, s, log) && n in Advance(s, log).closest
    ensures n.id != self
  {
    assert n in log.merged;
    MergedMembers(self, target, s, log, n);
    if n !in s.closest {
      GatheredIsNamed(self, target, s, log, n);
    }
  }

  lemma CutIsShort(merged: seq<NetworkNode>, target: Key)
    requires Ascending(merged, target) && merged != []
    ensures var c := merged[..Min(K, |merged|)]; Ascending(c, target) && 0 < |c| <= K
  {
  }

  lemma MergedIsSorted(self: Key, target: Key, s: SearchState, log: RoundLog)
    requires SearchInv(self, target, s) && GoodRound(self, target, s, log)
    ensures Ascending(log.merged, target) && log.merged != []
  {
    MergedMembers(self, target, s, log, s.closest[0]);
  }

  lemma RoundKeepsInv(self: Key, target: Key, s: SearchState, log: RoundLog)
    requires SearchInv(self, target, s) && GoodRound(self, target, s, log)
    ensures SearchInv(self, target, Advance(s, log))
  {
    MergedIsSorted(self, target, s, log);
    CutIsShort(log.merged, target);
    hide GoodRound, Ascending;
    forall n | n in Advance(s, log).closest
      ensures n.id != self
    {
      AdvanceExcludesSelf(self, target, s, log, n);
    }
  }

  /** The list never forgets a nearer node: what it covered, it still covers. */
  lemma RoundKeepsCovered(self: Key, target: Key, s: SearchState, log: RoundLog, id: Key)
    requires SearchInv(self, target, s) && GoodRound(self, target, s, log) && Covered(target, s, id)
    ensures Covered(target, Advance(s, log), id)
  {
    var s' := Advance(s, log);
    if id in Ids(s.closest) {
      var n :| n in s.closest && n.id == id;
      MergedMembers(self, target, s, log, n);
      CutCovers(log.merged, s', target, n);
    } else {
      var more := Gathered(self, s.visited, Queried(s), log, |Queried(s)|);
      assert multiset(s.closest + more) == multiset(s.closest) + multiset(more);
      FullStaysFull(s.closest, log.merged, target);
    }
  }

  lemma RoundCoversNamed(self: Key, target: Key, s: SearchState, log: RoundLog, id: Key)
    requires SearchInv(self, target, s) && GoodRound(self, target, s, log) && id in Named(self, log)
    requires forall v :: v in s.visited ==> Covered(target, s, v)
    ensures Covered(target, Advance(s, log), id)
  {
    var i, r :| 0 <= i < |log.answers| && log.answers[i].Nodes? && r in log.answers[i].res
                && r.id != self && r.id == id;
    if id in s.visited || id in Ids(Queried(s)) {
      RoundKeepsCovered(self, target, s, log, id);
    } else {
      NamedIsGathered(self, target, s, log, i, r);
      MergedMembers(self, target, s, log, r);
      CutCovers(log.merged, Advance(s, log), target, r);
    }
  }

  // ---- Every round ----

  lemma SeedKeepsInv(own: Table, target: Key, s: SearchState)
    requires Seeded(own, target, s)
    ensures SearchInv(own.owner, target, s)
  {
    var r :| IsFindClosest(Entries(own), target, K, r) && s.closest == WithoutId(r, own.owner);
    Closest.FindClosestIsBest(Entries(own), target, K, r);
    WithoutIdAscending(r, own.owner, target);
  }

  /** At every round head the list is sorted, at most K long, free of the searcher, and covers every ID the searcher
      was ever told, as well as every ID it has queried. */
  lemma {:induction false} BestKnown(self: Key, target: Key, states: seq<SearchState>, logs: seq<RoundLog>, n: nat)
    requires Rounds(self, target, states, logs) && SearchInv(self, target, states[0]) && states[0].visited == {}
    requires n <= |logs|
    ensures SearchInv(self, target, states[n])
    ensures states[n].visited <= Learned(self, states, logs, n)
    ensures Ids(states[n].closest) <= Learned(self, states, logs, n)
    ensures forall id :: id in Learned(self, states, logs, n) ==> Covered(target, states[n], id)
    decreases n
  {
    if n > 0 {
      var s, log := states[n - 1], logs[n - 1];
      BestKnown(self, target, states, logs, n - 1);
      RoundKeepsInv(self, target, s, log);
      forall id | id in Learned(self, states, logs, n)
        ensures Covered(target, states[n], id)
      {
        if id in Named(self, log) {
          RoundCoversNamed(self, target, s, log, id);
        } else {
          RoundKeepsCovered(self, target, s, log, id);
        }
      }
      forall id | id in Ids(states[n].closest)
        ensures id in Learned(self, states, logs, n)
      {
        var e :| e in states[n].closest && e.id == id;
        assert e in log.merged;
        MergedMembers(self, target, s, log, e);
        if e !in s.closest {
          GatheredIsNamed(self, target, s, log, e);
        }
      }
    }
  }

  lemma CoveredIsNoNearer(self: Key, target: Key, s: SearchState, id: Key)
    requires SearchInv(self, target, s) && Covered(target, s, id)
    ensures GetKeyDistance(s.closest[0].id, target) <= GetKeyDistance(id, target)
  {
    if id in Ids(s.closest) {
      var n :| n in s.closest && n.id == id;
      var i :| 0 <= i < |s.closest| && s.closest[i] == n;
    }
  }

  /** The head of the list is a nearest node among all the searcher has ever been told of. */
  lemma HeadIsNearestLearned(self: Key, target: Key, states: seq<SearchState>, logs: seq<RoundLog>, n: nat)
    requires Rounds(self, target, states, logs) && SearchInv(self, target, states[0]) && states[0].visited == {}
    requires n <= |logs|
    ensures states[n].closest != [] && states[n].closest[0].id in Learned(self, states, logs, n)
    ensures forall id :: id in Learned(self, states, logs, n)
              ==> GetKeyDistance(states[n].closest[0].id, target) <= GetKeyDistance(id, target)
  {
    BestKnown(self, target, states, logs, n);
    assert states[n].closest[0] in states[n].closest;
    forall id | id in Learned(self, states, logs, n)
      ensures GetKeyDistance(states[n].closest[0].id, target) <= GetKeyDistance(id, target)
    {
      CoveredIsNoNearer(self, target, states[n], id);
    }
  }

  // ---- Termination ----

  lemma RoundVisitsMore(self: Key, target: Key, s: SearchState, log: RoundLog)
    requires GoodRound(self, target, s, log)
    ensures s.visited < Advance(s, log).visited && |s.visited| < |Advance(s, log).visited|
  {
    var q := Queried(s);
    assert q[0] in q;
    assert q[0].id in Ids(q);
    StrictSubsetSize(s.visited, Advance(s, log).visited);
  }

  lemma StrictSubsetSize<T>(a: set<T>, b: set<T>)
    requires a < b
    ensures |a| < |b|
  {
    SubsetSize(a, b);
    var x :| x in b && x !in a;
    assert x in b - a;
    assert b == a + (b - a);
  }

  lemma SubsetSize<T>(a: set<T>, b: set<T>)
    requires a <= b
    ensures |a| <= |b|
  {
    assert b == a + (b - a);
  }

  ghost function Values(keys: set<Key>): set<nat> {
    set k | k in keys :: Value(k.bytes)
  }

  /** Different keys are different numbers. */
  lemma {:induction false} KeysBySize(keys: set<Key>)
    ensures |Values(keys)| == |keys|
    decreases |keys|
  {
    if keys != {} {
      var k :| k in keys;
      var rest := keys - {k};
      KeysBySize(rest);
      assert Value(k.bytes) !in Values(rest) by {
        forall j | j in rest
          ensures Value(j.bytes) != Value(k.bytes)
        {
          ValueOrder(j.bytes, k.bytes);
        }
      }
      assert Values(keys) == Values(rest) + {Value(k.bytes)};
      assert keys == rest + {k};
    }
  }

  /** There are at most 2^160 keys, so 2^160 - |visited| is a measure that every round lowers. */
  lemma KeySetSize(keys: set<Key>)
    ensures |keys| <= Pow2(KEY_BITS)
  {
    KeysBySize(keys);
    forall v | v in Values(keys)
      ensures v < Pow2(KEY_BITS)
    {
      var k :| k in keys && Value(k.bytes) == v;
      ValueBound(k.bytes);
    }
    BoundedSetSize(Values(keys), Pow2(KEY_BITS));
  }

  /** Rounds are bounded by the IDs learned, and those by the number of keys. */
  lemma {:induction false} RoundsAreBounded(self: Key, target: Key, states: seq<SearchState>, logs: seq<RoundLog>,
                                            n: nat)
    requires Rounds(self, target, states, logs) && SearchInv(self, target, states[0]) && states[0].visited == {}
    requires n <= |logs|
    ensures n <= |states[n].visited| <= |Learned(self, states, logs, n)| <= Pow2(KEY_BITS)
    decreases n
  {
    if n > 0 {
      RoundsAreBounded(self, target, states, logs, n - 1);
      RoundVisitsMore(self, target, states[n - 1], logs[n - 1]);
    }
    BestKnown(self, target, states, logs, n);
    SubsetSize(states[n].visited, Learned(self, states, logs, n));
    KeySetSize(Learned(self, states, logs, n));
  }

  lemma {:induction false} VisitedGrows(self: Key, target: Key, states: seq<SearchState>, logs: seq<RoundLog>, m: nat,
                                        n: nat)
    requires Rounds(self, target, states, logs) && m <= n <= |logs|
    ensures states[m].visited <= states[n].visited
    decreases n - m
  {
    if m < n {
      assert states[n] == Advance(states[n - 1], logs[n - 1]);
      hide Rounds;
      VisitedGrows(self, target, states, logs, m, n - 1);
    }
  }

  /** No ID is queried in two different rounds. */
  lemma NeverQueriedAgain(self: Key, target: Key, states: seq<SearchState>, logs: seq<RoundLog>, m: nat, n: nat)
    requires Rounds(self, target, states, logs) && m < n <= |logs|
    ensures Ids(Queried(states[m])) !! Ids(Queried(states[n]))
  {
    VisitedGrows(self, target, states, logs, m + 1, n);
  }

  /** The loop stops exactly when every entry of the list has been queried. */
  lemma StopsWhenAllVisited(s: SearchState)
    ensures Queried(s) == [] <==> Ids(s.closest) <= s.visited
  {
    if Ids(s.closest) <= s.visited {
      forall n | n in s.closest
        ensures n.id in s.visited
      {
        assert n.id in Ids(s.closest);
      }
    }
  }
}
