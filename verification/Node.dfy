/** dht/node.go and dht/logic.go as the object they are: a node's routing table and storage, its handlers, and the
    searches it runs against a network that answers as it likes. */
module Nodes {
  import opened Bits
  import opened Keys
  import opened Options
  import opened Tables
  import opened Search
  import opened SearchRuns
  import opened Adds
  import opened Convergence
  import opened RoutingTables
  import opened World
  import AddHistory
  import Closest
  import Kept

  /** What the network decides during one search: the answer to query i of each round, and when the context ends. */
  datatype Network = Network(answer: (nat, nat) -> Answer, cancelled: nat -> bool)

  datatype Outcome =
    | NoPeers
    | CancelledWith(closest: seq<NetworkNode>)
    | Value(value: ValueMeta)
    | Exhausted(closest: seq<NetworkNode>)

  /** The lists behind the multiset of all nodes kept in a round. */
  ghost function Total(parts: seq<seq<NetworkNode>>): multiset<NetworkNode> {
    if parts == [] then multiset{} else Total(parts[..|parts| - 1]) + multiset(parts[|parts| - 1])
  }

  lemma {:induction false} TotalUpdate(parts: seq<seq<NetworkNode>>, i: nat, p: seq<NetworkNode>)
    requires i < |parts| && parts[i] == []
    ensures Total(parts[i := p]) == Total(parts) + multiset(p)
    decreases |parts|
  {
    var n := |parts| - 1;
    var parts' := parts[i := p];
    if i < n {
      TotalUpdate(parts[..n], i, p);
      assert parts'[..n] == parts[..n][i := p];
    } else {
      assert parts'[..n] == parts[..n];
    }
  }

  lemma {:induction false} TotalEmpty(parts: seq<seq<NetworkNode>>)
    requires forall i :: 0 <= i < |parts| ==> parts[i] == []
    ensures Total(parts) == multiset{}
  {
    if parts != [] {
      TotalEmpty(parts[..|parts| - 1]);
    }
  }

  lemma {:induction false} TotalIsGathered(self: Key, visited: set<Key>, q: seq<NetworkNode>, log: RoundLog,
                                           parts: seq<seq<NetworkNode>>, count: nat)
    requires count == |parts| <= |q| == |log.answers| == |log.late|
    requires forall i :: 0 <= i < count ==> parts[i] == AcceptedFrom(self, visited, q, i, log.answers[i], log.late[i])
    ensures Total(parts) == multiset(Gathered(self, visited, q, log, count))
    decreases count
  {
    if count > 0 {
      TotalIsGathered(self, visited, q, log, parts[..count - 1], count - 1);
    }
  }

  /** The thread of the search or request at hand, which has one Add in progress at most: a search makes its Adds under
      a lock, a request makes one. All other threads belong to other requests. */
  const OWN: nat := 0

  /** What other requests do to the storage. */
  datatype StorageWrite = Wrote(key: Key, value: ValueMeta) | Erased(key: Key)

  function Written(storage: map<Key, ValueMeta>, writes: seq<StorageWrite>): map<Key, ValueMeta> {
    if writes == [] then storage
    else
      var before := Written(storage, writes[..|writes| - 1]);
      match writes[|writes| - 1]
      case Wrote(key, value) => before[key := value]
      case Erased(key) => before - {key}
  }

  lemma {:induction false} WrittenIsLast(storage: map<Key, ValueMeta>, writes: seq<StorageWrite>, k: nat)
    requires k < |writes| && forall l :: k < l < |writes| ==> writes[l].key != writes[k].key
    ensures var key, after := writes[k].key, Written(storage, writes);
            if writes[k].Wrote? then key in after && after[key] == writes[k].value else key !in after
    decreases |writes|
  {
    var n := |writes| - 1;
    if k < n {
      WrittenIsLast(storage, writes[..n], k);
    }
  }

  lemma {:induction false} UnwrittenStays(storage: map<Key, ValueMeta>, writes: seq<StorageWrite>, key: Key)
    requires forall l :: 0 <= l < |writes| ==> writes[l].key != key
    ensures var after := Written(storage, writes);
            (key in after <==> key in storage) && (key in storage ==> after[key] == storage[key])
    decreases |writes|
  {
    if writes != [] {
      UnwrittenStays(storage, writes[..|writes| - 1], key);
    }
  }

  class Node {
    const self: NetworkNode
    const rt: RoutingTable
    var storage: map<Key, ValueMeta>
    /** The Adds that have released the table's lock to ping. */
    var waiting: map<nat, Pending>

    ghost predicate Valid()
      reads this, rt, rt.buckets
    {
      rt.Valid() && rt.nodeId == self.id && Inv(AddState())
    }

    ghost function AddState(): State
      reads this, rt, rt.buckets
      requires rt.buckets.Length == KEY_BITS
    {
      State(rt.View(), waiting)
    }

    /** The search or request at hand has no Add in progress. */
    ghost predicate Idle()
      reads this, rt, rt.buckets
    {
      Valid() && OWN !in waiting
    }

    constructor (netNode: NetworkNode)
      ensures Idle() && fresh(rt) && fresh(rt.buckets) && self == netNode && storage == map[] && waiting == map[]
      ensures rt.hasPing && Entries(rt.View()) == []
    {
      self := netNode;
      rt := new RoutingTable(netNode.id);
      storage, waiting := map[], map[];
      new;
      rt.SetPing(true);
      EmptyTable(rt.View().buckets);
    }

    method BeginAdd(tid: nat, n: NetworkNode)
      requires Valid() && tid !in waiting
      modifies this`waiting, rt.buckets
      ensures Valid() && AddState() == Next(old(AddState()), Begin(tid, n))
    {
      ghost var s := AddState();
      StepKeepsInv(s, Begin(tid, n));
      var pending := rt.BeginAdd(n);
      if pending.Some? {
        waiting := waiting[tid := pending.value];
      }
    }

    method FinishAdd(tid: nat, pong: bool)
      requires Valid() && tid in waiting
      modifies this`waiting, rt.buckets
      ensures Valid() && AddState() == Next(old(AddState()), Finish(tid, rt.hasPing && pong))
    {
      ghost var s := AddState();
      StepKeepsInv(s, Finish(tid, rt.hasPing && pong));
      rt.FinishAdd(waiting[tid], rt.hasPing && pong);
      waiting := waiting - {tid};
    }

    /** Whatever other requests do to the table meanwhile. */
    method ServeOthers()
      requires Valid()
      modifies this`waiting, rt.buckets
      ensures Valid() && Led(old(AddState()), AddState(), [])
      ensures if OWN in old(waiting) then OWN in waiting && waiting[OWN] == old(waiting[OWN]) else OWN !in waiting
    {
      var steps: int := *;
      LedNowhere(AddState());
      while steps > 0
        invariant Valid() && Led(old(AddState()), AddState(), [])
        invariant if OWN in old(waiting) then OWN in waiting && waiting[OWN] == old(waiting[OWN]) else OWN !in waiting
      {
        hide Led;
        steps := steps - 1;
        ghost var s := AddState();
        var tid: nat, n: NetworkNode, pong: bool := *, *, *;
        if tid == OWN {
          continue;
        }
        if tid in waiting {
          FinishAdd(tid, pong);
          LedStep(old(AddState()), s, [], Finish(tid, rt.hasPing && pong));
        } else {
          BeginAdd(tid, n);
          LedStep(old(AddState()), s, [], Begin(tid, n));
        }
      }
    }

    /** Whatever other requests do to the storage meanwhile. */
    method ServeStorage(writes: seq<StorageWrite>)
      modifies this`storage
      ensures storage == Written(old(storage), writes)
    {
      assert writes[..0] == [];
      for i := 0 to |writes|
        invariant storage == Written(old(storage), writes[..i])
      {
        assert writes[..i + 1][..i] == writes[..i];
        match writes[i]
        case Wrote(key, value) => storage := storage[key := value];
        case Erased(key) => storage := storage - {key};
      }
      assert writes[..|writes|] == writes;
    }

    /** The Add of a contact, with whatever else goes on during its ping. */
    method AddContact(n: NetworkNode, pong: bool)
      requires Idle()
      modifies this`waiting, rt.buckets
      ensures Idle() && AddedOnce(old(AddState()), AddState(), n, rt.hasPing && pong)
    {
      hide Led, Next;
      ghost var s0 := AddState();
      LedNowhere(s0);
      BeginAdd(OWN, n);
      LedStep(s0, s0, [], Begin(OWN, n));
      assert [] + [Begin(OWN, n)] == [Begin(OWN, n)];
      ghost var s1 := AddState();
      ServeOthers();
      ghost var s2 := AddState();
      LedOn(s0, s1, s2, [Begin(OWN, n)]);
      if OWN in waiting {
        FinishAdd(OWN, pong);
        FinishEnds(s2, OWN, rt.hasPing && pong);
        LedStep(s0, s2, [Begin(OWN, n)], Finish(OWN, rt.hasPing && pong));
        assert [Begin(OWN, n)] + [Finish(OWN, rt.hasPing && pong)]
            == [Begin(OWN, n), Finish(OWN, rt.hasPing && pong)];
      }
    }

    /** Requests may come without a sender. */
    method ObservePeer(peer: Option<NetworkNode>, pong: bool)
      requires Idle()
      modifies this`waiting, rt.buckets
      ensures Idle() && Observes(old(AddState()), AddState(), peer, rt.hasPing && pong)
      ensures peer.None? ==> AddState() == old(AddState())
    {
      match peer
      case None => LedNowhere(AddState());
      case Some(n) => AddContact(n, pong);
    }

    /** A handler observes the sender and then goes on; other requests come between as they like, and of these,
        meanwhile is what is done to the storage before the handler gets to it. */
    method OnStore(sender: Option<NetworkNode>, key: Key, data: ValueMeta, pong: bool, meanwhile: seq<StorageWrite>)
      requires Idle()
      modifies this`waiting, this`storage, rt.buckets
      ensures Idle() && Observes(old(AddState()), AddState(), sender, rt.hasPing && pong)
      ensures storage == Written(old(storage), meanwhile)[key := data]
    {
      ObserveAndServe(sender, pong);
      ServeStorage(meanwhile);
      storage := storage[key := data];
    }

    method ObserveAndServe(sender: Option<NetworkNode>, pong: bool)
      requires Idle()
      modifies this`waiting, rt.buckets
      ensures Idle() && Observes(old(AddState()), AddState(), sender, rt.hasPing && pong)
    {
      hide Led;
      ObservePeer(sender, pong);
      ghost var s := AddState();
      ServeOthers();
      ObservesOn(old(AddState()), s, AddState(), sender, rt.hasPing && pong);
    }

    method OnFindNode(sender: Option<NetworkNode>, target: Key, pong: bool) returns (nodes: seq<NetworkNode>)
      requires Idle()
      modifies this`waiting, rt.buckets
      ensures Idle() && Observes(old(AddState()), AddState(), sender, rt.hasPing && pong)
      ensures IsFindClosest(Entries(rt.View()), target, K, nodes)
    {
      ObserveAndServe(sender, pong);
      nodes := rt.FindClosest(target, K);
    }

    /** As the caller sees it, "not found" is an empty list. */
    method OnFindValue(sender: Option<NetworkNode>, key: Key, pong: bool, meanwhile: seq<StorageWrite>)
      returns (a: Answer)
      requires Idle()
      modifies this`waiting, this`storage, rt.buckets
      ensures Idle() && Observes(old(AddState()), AddState(), sender, rt.hasPing && pong)
      ensures storage == Written(old(storage), meanwhile)
      ensures if key in storage then a == Found(storage[key])
              else a.Nodes? && IsFindClosest(Entries(rt.View()), key, K, a.res)
    {
      hide Led;
      ObserveAndServe(sender, pong);
      ServeStorage(meanwhile);
      if key in storage {
        return Found(storage[key]);
      }
      ghost var s := AddState();
      ServeOthers();
      ObservesOn(old(AddState()), s, AddState(), sender, rt.hasPing && pong);
      var nodes := rt.FindClosest(key, K);
      a := Nodes(nodes);
    }

    /** The peer FetchBlob asks: the blob's node itself, exactly when the table lists it. */
    method BlobPeer(blobNode: Key) returns (peer: Option<NetworkNode>)
      requires Valid()
      ensures peer.Some? <==> exists e :: e in Entries(rt.View()) && e.id == blobNode
      ensures peer.Some? ==> peer.value in Entries(rt.View()) && peer.value.id == blobNode
    {
      var peers := rt.FindClosest(blobNode, 1);
      Closest.FindClosestOne(Entries(rt.View()), blobNode, peers);
      if |peers| == 0 || peers[0].id != blobNode {
        return None;
      }
      Closest.FindClosestMembers(Entries(rt.View()), blobNode, 1, peers, peers[0]);
      return Some(peers[0]);
    }
  }

  lemma {:induction false} EmptyTable(bs: seq<Bucket>)
    requires forall i :: 0 <= i < |bs| ==> bs[i] == []
    ensures Flatten(bs) == []
  {
    if bs != [] {
      EmptyTable(bs[..|bs| - 1]);
    }
  }

  // ---- Adds among the Adds of others ----

  /** The events of the search or request at hand. */
  ghost function OwnEvents(events: seq<Event>): seq<Event> {
    if events == [] then []
    else
      var n := |events| - 1;
      OwnEvents(events[..n]) + if events[n].tid == OWN then [events[n]] else []
  }

  ghost predicate Leads(states: seq<State>, events: seq<Event>, s: State, s': State) {
    Run(states, events) && states[0] == s && states[|events|] == s'
  }

  /** Some run leads from s to s' in which own is what the search or request at hand does. */
  ghost predicate Led(s: State, s': State, own: seq<Event>) {
    exists states, events :: Leads(states, events, s, s') && OwnEvents(events) == own
  }

  /** The request at hand makes one Add of n; it has a second section exactly if the first one left it waiting. */
  ghost predicate AddedOnce(s: State, s': State, n: NetworkNode, alive: bool) {
    Led(s, s', [Begin(OWN, n)]) || Led(s, s', [Begin(OWN, n), Finish(OWN, alive)])
  }

  ghost predicate Observes(s: State, s': State, peer: Option<NetworkNode>, alive: bool) {
    match peer
    case None => Led(s, s', [])
    case Some(n) => AddedOnce(s, s', n, alive)
  }

  lemma LedNowhere(s: State)
    ensures Led(s, s, [])
  {
    assert Leads([s], [], s, s) && OwnEvents([]) == [];
  }

  lemma {:induction false} OwnEventsConcat(a: seq<Event>, b: seq<Event>)
    ensures OwnEvents(a + b) == OwnEvents(a) + OwnEvents(b)
    decreases |b|
  {
    if b == [] {
      assert a + b == a;
    } else {
      var n := |b| - 1;
      assert (a + b)[..|a| + n] == a + b[..n];
      OwnEventsConcat(a, b[..n]);
    }
  }

  lemma OwnEventsOne(e: Event)
    ensures OwnEvents([e]) == if e.tid == OWN then [e] else []
  {
    assert [e][..0] == [] && OwnEvents([]) == [];
  }

  lemma LedStep(s: State, s': State, own: seq<Event>, e: Event)
    requires Led(s, s', own) && Enabled(s', e)
    ensures Led(s, Next(s', e), if e.tid == OWN then own + [e] else own)
  {
    hide Enabled, Next;
    var states, events :| Leads(states, events, s, s') && OwnEvents(events) == own;
    RunSnoc(states, events, e);
    OwnEventsConcat(events, [e]);
    OwnEventsOne(e);
    assert Leads(states + [Next(s', e)], events + [e], s, Next(s', e));
  }

  lemma LedMore(s: State, s': State, s'': State, own: seq<Event>, more: seq<Event>)
    requires Led(s, s', own) && Led(s', s'', more)
    ensures Led(s, s'', own + more)
  {
    hide Enabled, Next;
    var sa, ea :| Leads(sa, ea, s, s') && OwnEvents(ea) == own;
    var sb, eb :| Leads(sb, eb, s', s'') && OwnEvents(eb) == more;
    RunConcat(sa, ea, sb, eb);
    OwnEventsConcat(ea, eb);
    assert Leads(sa[..|ea|] + sb, ea + eb, s, s'');
  }

  lemma LedOn(s: State, s': State, s'': State, own: seq<Event>)
    requires Led(s, s', own) && Led(s', s'', [])
    ensures Led(s, s'', own)
  {
    LedMore(s, s', s'', own, []);
    assert own + [] == own;
  }

  lemma ObservesOn(s: State, s': State, s'': State, peer: Option<NetworkNode>, alive: bool)
    requires Observes(s, s', peer, alive) && Led(s', s'', [])
    ensures Observes(s, s'', peer, alive)
  {
    hide Led;
    match peer
    case None => LedOn(s, s', s'', []);
    case Some(n) =>
      if Led(s, s', [Begin(OWN, n)]) {
        LedOn(s, s', s'', [Begin(OWN, n)]);
      } else {
        LedOn(s, s', s'', [Begin(OWN, n), Finish(OWN, alive)]);
      }
  }

  lemma FinishEnds(s: State, tid: nat, alive: bool)
    requires tid in s.pending
    ensures tid !in Next(s, Finish(tid, alive)).pending
  {
  }

  lemma {:induction false} AllAreOwn(events: seq<Event>)
    requires forall k :: 0 <= k < |events| ==> events[k].tid == OWN
    ensures OwnEvents(events) == events
  {
    if events != [] {
      AllAreOwn(events[..|events| - 1]);
    }
  }

  /** A request that nothing interrupts runs its Add to the end before anything else touches the table. */
  lemma ObservedAlone(states: seq<State>, events: seq<Event>, s: State, s': State, n: NetworkNode, alive: bool)
    requires Leads(states, events, s, s') && forall k :: 0 <= k < |events| ==> events[k].tid == OWN
    requires OwnEvents(events) == [Begin(OWN, n)] || OwnEvents(events) == [Begin(OWN, n), Finish(OWN, alive)]
    requires Inv(s) && s.pending == map[] && OWN !in s'.pending
    ensures s'.pending == map[] && s'.table == AddSerially(s.table, n, alive)
  {
    AllAreOwn(events);
    AddHistory.SerialAddIsARun(s, OWN, n, alive);
    assert Enabled(states[0], events[0]) && states[1] == Next(states[0], events[0]);
    if |events| == 2 {
      assert Enabled(states[1], events[1]) && states[2] == Next(states[1], events[1]);
    }
    hide Next, AddSerially;
  }

  // ---- What a search teaches the searcher's own table ----

  ghost function Contacts(events: seq<Event>): set<NetworkNode> {
    set k | 0 <= k < |events| && events[k].Begin? :: events[k].node
  }

  /** A run of Adds leads from s to s' in which the search's own are those of the nodes in named, and of no others. */
  ghost predicate Taught(s: State, s': State, named: set<NetworkNode>) {
    exists own :: Led(s, s', own) && Contacts(own) == named
  }

  lemma LedTeaches(s: State, s': State, own: seq<Event>)
    requires Led(s, s', own)
    ensures Taught(s, s', Contacts(own))
  {
  }

  lemma TaughtNothing(s: State, s': State)
    requires Led(s, s', [])
    ensures Taught(s, s', {})
  {
    LedTeaches(s, s', []);
    assert Contacts([]) == {};
  }

  lemma TaughtOne(s: State, s': State, n: NetworkNode, alive: bool)
    requires AddedOnce(s, s', n, alive)
    ensures Taught(s, s', {n})
  {
    hide Led;
    var own := if Led(s, s', [Begin(OWN, n)]) then [Begin(OWN, n)] else [Begin(OWN, n), Finish(OWN, alive)];
    LedTeaches(s, s', own);
    assert own[0] == Begin(OWN, n);
    assert Contacts(own) == {n};
  }

  lemma TaughtMore(s: State, s': State, s'': State, named: set<NetworkNode>, more: set<NetworkNode>)
    requires Taught(s, s', named) && Taught(s', s'', more)
    ensures Taught(s, s'', named + more)
  {
    hide Led;
    var a: seq<Event> :| Led(s, s', a) && Contacts(a) == named;
    var b: seq<Event> :| Led(s', s'', b) && Contacts(b) == more;
    LedMore(s, s', s'', a, b);
    forall k | 0 <= k < |a + b| && (a + b)[k].Begin?
      ensures (a + b)[k].node in named + more
    {
      assert (a + b)[k] == if k < |a| then a[k] else b[k - |a|];
    }
    forall k | 0 <= k < |b| && b[k].Begin?
      ensures b[k].node in Contacts(a + b)
    {
      assert (a + b)[|a| + k] == b[k];
    }
    forall k | 0 <= k < |a| && a[k].Begin?
      ensures a[k].node in Contacts(a + b)
    {
      assert (a + b)[k] == a[k];
    }
    assert Contacts(a + b) == named + more;
  }

  /** Being taught breaks no invariant and empties no bucket, whatever other Adds come in between. */
  lemma TaughtKeeps(s: State, s': State, named: set<NetworkNode>)
    requires Inv(s) && Taught(s, s', named)
    ensures Inv(s') && Grown(s.table, s'.table)
  {
    var own :| Led(s, s', own) && Contacts(own) == named;
    var states, events :| Leads(states, events, s, s') && OwnEvents(events) == own;
    RunKeepsInv(states, events, 0, |events|);
  }

  lemma {:induction false} OnlyOwnWaits(states: seq<State>, events: seq<Event>, n: nat)
    requires Run(states, events) && states[0].pending == map[] && n <= |events|
    requires forall k :: 0 <= k < |events| ==> events[k].tid == OWN
    ensures states[n].pending.Keys <= {OWN}
    decreases n
  {
    if n > 0 {
      OnlyOwnWaits(states, events, n - 1);
    }
  }

  /** If nothing comes in between, being taught stores no ID twice. */
  lemma TaughtAloneKeepsUnique(states: seq<State>, events: seq<Event>, s: State, s': State)
    requires Leads(states, events, s, s') && forall k :: 0 <= k < |events| ==> events[k].tid == OWN
    requires Inv(s) && Unique(s.table) && s.pending == map[]
    ensures Unique(s'.table)
  {
    forall n | 0 <= n < |events|
      ensures Exclusive(states[n], events[n])
    {
      OnlyOwnWaits(states, events, n);
      assert Enabled(states[n], events[n]);
    }
    ExclusiveRunIsUnique(states, events, |events|);
  }

  ghost function NamedIn(self: Key, a: Answer): set<NetworkNode> {
    if a.Nodes? then set n | n in a.res && n.id != self else {}
  }

  ghost function NamedBy(self: Key, answers: seq<Answer>): set<NetworkNode> {
    set i, n | 0 <= i < |answers| && n in NamedIn(self, answers[i]) :: n
  }

  ghost function NamedInRounds(self: Key, logs: seq<RoundLog>): set<NetworkNode> {
    if logs == [] then {}
    else NamedInRounds(self, logs[..|logs| - 1]) + NamedBy(self, logs[|logs| - 1].answers)
  }

  ghost function NamedAtEnd(self: Key, ending: Ending): set<NetworkNode> {
    if ending.Returned? then NamedBy(self, ending.answers) else {}
  }

  /** All nodes but the searcher that any answer of the search named. */
  ghost function NamedDuring(self: Key, x: Execution): set<NetworkNode> {
    NamedInRounds(self, x.logs) + NamedAtEnd(self, x.ending)
  }

  lemma NamedInSnoc(self: Key, res: seq<NetworkNode>, j: nat)
    requires j < |res|
    ensures NamedIn(self, Nodes(res[..j + 1]))
         == NamedIn(self, Nodes(res[..j])) + if res[j].id != self then {res[j]} else {}
  {
    assert res[..j + 1] == res[..j] + [res[j]];
  }

  lemma NamedInRoundsSnoc(self: Key, logs: seq<RoundLog>, log: RoundLog)
    ensures NamedInRounds(self, logs + [log]) == NamedInRounds(self, logs) + NamedBy(self, log.answers)
  {
    assert (logs + [log])[..|logs|] == logs;
  }

  /** named is what the answers no longer waited for name. */
  ghost predicate NamedSoFar(self: Key, answers: seq<Answer>, waiting: set<int>, named: set<NetworkNode>) {
    named == set i, n | 0 <= i < |answers| && i !in waiting && n in NamedIn(self, answers[i]) :: n
  }

  lemma NamedSoFarStep(self: Key, answers: seq<Answer>, waiting: set<int>, named: set<NetworkNode>, i: nat)
    requires NamedSoFar(self, answers, waiting, named) && i in waiting && i < |answers|
    ensures NamedSoFar(self, answers, waiting - {i}, named + NamedIn(self, answers[i]))
  {
    hide NamedIn;
    var now := set j, n | 0 <= j < |answers| && j !in waiting - {i} && n in NamedIn(self, answers[j]) :: n;
    forall n | n in now
      ensures n in named + NamedIn(self, answers[i])
    {
      var j :| 0 <= j < |answers| && j !in waiting - {i} && n in NamedIn(self, answers[j]);
    }
    assert forall n :: n in NamedIn(self, answers[i]) ==> n in now;
    assert now == named + NamedIn(self, answers[i]);
  }

  // ---- iterativeSearch ----

  /** Picking on from position i, with toQuery picked already. */
  ghost predicate PickedSoFar(closest: seq<NetworkNode>, visited: set<Key>, i: nat, toQuery: seq<NetworkNode>)
    requires i <= |closest|
  {
    |toQuery| <= ALPHA
    && Unvisited(closest, visited, ALPHA) == toQuery + Unvisited(closest[i..], visited, ALPHA - |toQuery|)
  }

  lemma ConcatAssoc<T>(a: seq<T>, x: T, b: seq<T>)
    ensures a + ([x] + b) == (a + [x]) + b
  {
  }

  lemma UnvisitedFrom(closest: seq<NetworkNode>, visited: set<Key>, i: nat, limit: nat)
    requires i < |closest| && limit > 0
    ensures Unvisited(closest[i..], visited, limit)
         == if closest[i].id in visited then Unvisited(closest[i + 1..], visited, limit)
            else [closest[i]] + Unvisited(closest[i + 1..], visited, limit - 1)
  {
    var rest := closest[i..];
    assert rest[1..] == closest[i + 1..] && rest[0] == closest[i] && rest != [];
  }

  lemma PickNext(closest: seq<NetworkNode>, visited: set<Key>, i: nat, toQuery: seq<NetworkNode>)
    requires i < |closest| && |toQuery| < ALPHA && PickedSoFar(closest, visited, i, toQuery)
    ensures PickedSoFar(closest, visited, i + 1, if closest[i].id in visited then toQuery else toQuery + [closest[i]])
  {
    UnvisitedFrom(closest, visited, i, ALPHA - |toQuery|);
    ConcatAssoc(toQuery, closest[i], Unvisited(closest[i + 1..], visited, ALPHA - |toQuery| - 1));
    hide Unvisited;
  }

  method PickUnvisited(closest: seq<NetworkNode>, visited: set<Key>) returns (toQuery: seq<NetworkNode>)
    ensures toQuery == Unvisited(closest, visited, ALPHA)
  {
    toQuery := [];
    assert closest[0..] == closest;
    for i := 0 to |closest|
      invariant |toQuery| < ALPHA && PickedSoFar(closest, visited, i, toQuery)
    {
      PickNext(closest, visited, i, toQuery);
      if closest[i].id !in visited {
        toQuery := toQuery + [closest[i]];
        if |toQuery| == ALPHA {
          return;
        }
      }
    }
  }

  /** One query's answer: each node named is added to the table and, unless visited is seen to hold it, kept. The
      IDs in marking are being marked by the spawning loop meanwhile. */
  method TakeNodes(node: Node, known: set<Key>, marking: set<Key>, res: seq<NetworkNode>)
    returns (kept: seq<NetworkNode>, ghost late: seq<bool>)
    requires node.Idle()
    modifies node`waiting, node.rt.buckets
    ensures node.Idle() && Taught(old(node.AddState()), node.AddState(), NamedIn(node.self.id, Nodes(res)))
    ensures |late| == |res| && kept == Accepted(node.self.id, known, marking, res, late)
  {
    kept, late := [], [];
    LedNowhere(node.AddState());
    TaughtNothing(node.AddState(), node.AddState());
    assert NamedIn(node.self.id, Nodes(res[..0])) == {};
    for j := 0 to |res|
      invariant node.Idle() && Taught(old(node.AddState()), node.AddState(), NamedIn(node.self.id, Nodes(res[..j])))
      invariant |late| == j && kept == Accepted(node.self.id, known, marking, res[..j], late)
    {
      hide Taught, AddedOnce;
      var r := res[j];
      var early: bool := *;
      NamedInSnoc(node.self.id, res, j);
      assert res[..j + 1][..j] == res[..j];
      assert (late + [early])[..j] == late;
      late := late + [early];
      if r.id != node.self.id {
        ghost var before := node.AddState();
        var pong: bool := *;
        node.AddContact(r, pong);
        TaughtOne(before, node.AddState(), r, node.rt.hasPing && pong);
        TaughtMore(old(node.AddState()), before, node.AddState(), NamedIn(node.self.id, Nodes(res[..j])), {r});
        if r.id !in known && (r.id in marking ==> early) {
          kept := kept + [r];
        }
      }
    }
    assert res[..|res|] == res;
  }

  /** Every answer but those still waited for has been taken: its kept nodes are its part of newNodes, and a value in
      it has been noted. */
  ghost predicate Taken(self: Key, visited: set<Key>, q: seq<NetworkNode>, answers: seq<Answer>, waiting: set<int>,
                        late: seq<seq<bool>>, parts: seq<seq<NetworkNode>>, found: Option<ValueMeta>)
  {
    |late| == |parts| == |q| == |answers|
    && (forall i :: i in waiting ==> 0 <= i < |q| && parts[i] == [])
    && (found.Some? ==> Found(found.value) in answers)
    && forall i :: 0 <= i < |q| && i !in waiting ==>
         (answers[i].Found? ==> found.Some?)
         && (answers[i].Nodes? ==> |late[i]| == |answers[i].res|)
         && parts[i] == AcceptedFrom(self, visited, q, i, answers[i], late[i])
  }

  lemma TakeOne(self: Key, visited: set<Key>, q: seq<NetworkNode>, answers: seq<Answer>, waiting: set<int>,
                late: seq<seq<bool>>, parts: seq<seq<NetworkNode>>, found: Option<ValueMeta>,
                i: nat, l: seq<bool>, kept: seq<NetworkNode>)
    requires Taken(self, visited, q, answers, waiting, late, parts, found) && i in waiting
    requires answers[i].Nodes? && |l| == |answers[i].res|
    requires kept == Accepted(self, visited + Ids(q[..i + 1]), Ids(q[i + 1..]), answers[i].res, l)
    ensures Taken(self, visited, q, answers, waiting - {i}, late[i := l], parts[i := kept], found)
    ensures Total(parts[i := kept]) == Total(parts) + multiset(kept)
  {
    hide Accepted, Ids;
    TotalUpdate(parts, i, kept);
  }

  lemma TakeOther(self: Key, visited: set<Key>, q: seq<NetworkNode>, answers: seq<Answer>, waiting: set<int>,
                  late: seq<seq<bool>>, parts: seq<seq<NetworkNode>>, found: Option<ValueMeta>, i: nat)
    requires Taken(self, visited, q, answers, waiting, late, parts, found) && i in waiting && !answers[i].Nodes?
    ensures Taken(self, visited, q, answers, waiting - {i}, late, parts,
                  if answers[i].Found? then Some(answers[i].value) else found)
  {
  }

  lemma AllTaken(self: Key, visited: set<Key>, q: seq<NetworkNode>, answers: seq<Answer>, late: seq<seq<bool>>,
                 parts: seq<seq<NetworkNode>>)
    requires Taken(self, visited, q, answers, {}, late, parts, None)
    ensures forall i :: 0 <= i < |q| ==> !answers[i].Found? && (answers[i].Nodes? ==> |late[i]| == |answers[i].res|)
    ensures Total(parts) == multiset(Gathered(self, visited, q, RoundLog(answers, late, []), |q|))
  {
    TotalIsGathered(self, visited, q, RoundLog(answers, late, []), parts, |q|);
  }

  /** The answer to query i, after whatever other requests did before it came. */
  method TakeAnswer(node: Node, visited: set<Key>, q: seq<NetworkNode>, i: nat, answer: Answer)
    returns (kept: seq<NetworkNode>, ghost late: seq<bool>)
    requires node.Idle() && i < |q|
    modifies node`waiting, node.rt.buckets
    ensures node.Idle() && Taught(old(node.AddState()), node.AddState(), NamedIn(node.self.id, answer))
    ensures if answer.Nodes?
            then |late| == |answer.res|
                 && kept == Accepted(node.self.id, visited + Ids(q[..i + 1]), Ids(q[i + 1..]), answer.res, late)
            else kept == []
    ensures forall n :: n in kept ==> n.id != node.self.id && n.id !in visited && n.id !in Ids(q[..i + 1])
  {
    hide Taught, Led, Accepted;
    kept, late := [], [];
    ghost var start := node.AddState();
    node.ServeOthers();
    ghost var served := node.AddState();
    TaughtNothing(start, served);
    if answer.Nodes? {
      kept, late := TakeNodes(node, visited + Ids(q[..i + 1]), Ids(q[i + 1..]), answer.res);
      TaughtMore(start, served, node.AddState(), {}, NamedIn(node.self.id, answer));
      assert {} + NamedIn(node.self.id, answer) == NamedIn(node.self.id, answer);
      assert kept == AcceptedFrom(node.self.id, visited, q, i, answer, late);
      forall n | n in kept
        ensures n.id != node.self.id && n.id !in visited && n.id !in Ids(q[..i + 1])
      {
        Kept.KeptWereUnmarked(node.self.id, visited, q, i, answer, late, n);
      }
    }
  }

  /** All queries of a round; their answers are taken in any order. */
  method QueryAll(node: Node, visited: set<Key>, q: seq<NetworkNode>, answers: seq<Answer>)
    returns (newNodes: seq<NetworkNode>, found: Option<ValueMeta>, ghost late: seq<seq<bool>>)
    requires node.Idle() && |answers| == |q|
    modifies node`waiting, node.rt.buckets
    ensures node.Idle() && Taught(old(node.AddState()), node.AddState(), NamedBy(node.self.id, answers))
    ensures |late| == |q|
    ensures forall n :: n in newNodes ==> n.id != node.self.id && n.id !in visited
    ensures found.Some? ==> Found(found.value) in answers
    ensures found.None? ==> forall i :: 0 <= i < |q| ==>
                              !answers[i].Found? && (answers[i].Nodes? ==> |late[i]| == |answers[i].res|)
    ensures found.None? ==>
      multiset(newNodes) == multiset(Gathered(node.self.id, visited, q, RoundLog(answers, late, []), |q|))
  {
    newNodes, found := [], None;
    late := seq(|q|, i => []);
    ghost var self, parts: seq<seq<NetworkNode>> := node.self.id, seq(|q|, i => []);
    TotalEmpty(parts);
    var waiting := set i {:trigger q[i]} | 0 <= i < |q|;
    ghost var named: set<NetworkNode> := {};
    LedNowhere(node.AddState());
    TaughtNothing(node.AddState(), node.AddState());
    while waiting != {}
      invariant node.Idle() && Taught(old(node.AddState()), node.AddState(), named)
      invariant NamedSoFar(self, answers, waiting, named)
      invariant Taken(self, visited, q, answers, waiting, late, parts, found)
      invariant multiset(newNodes) == Total(parts)
      invariant forall n :: n in newNodes ==> n.id != self && n.id !in visited
      decreases waiting
    {
      hide Taught, Led, NamedSoFar, AcceptedFrom, Accepted, Total;
      var i: int :| i in waiting;
      assert 0 <= i < |q|;
      NamedSoFarStep(self, answers, waiting, named, i);
      ghost var before := node.AddState();
      var kept, l := TakeAnswer(node, visited, q, i, answers[i]);
      TaughtMore(old(node.AddState()), before, node.AddState(), named, NamedIn(self, answers[i]));
      match answers[i] {
      case Failed =>
        TakeOther(self, visited, q, answers, waiting, late, parts, found, i);
      case Found(value) =>
        TakeOther(self, visited, q, answers, waiting, late, parts, found, i);
        found := Some(value);
      case Nodes(res) =>
        TakeOne(self, visited, q, answers, waiting, late, parts, found, i, l, kept);
        newNodes := newNodes + kept;
        late, parts := late[i := l], parts[i := kept];
      }
      waiting, named := waiting - {i}, named + NamedIn(self, answers[i]);
    }
    assert named == NamedBy(self, answers);
    if found.None? {
      AllTaken(self, visited, q, answers, late, parts);
    }
  }

  lemma {:induction false} GatheredIgnoresSort(self: Key, visited: set<Key>, q: seq<NetworkNode>, log: RoundLog,
                                               other: RoundLog, count: nat)
    requires count <= |q| == |log.answers| == |log.late| && log.answers == other.answers && log.late == other.late
    ensures Gathered(self, visited, q, log, count) == Gathered(self, visited, q, other, count)
    decreases count
  {
    if count > 0 {
      GatheredIgnoresSort(self, visited, q, log, other, count - 1);
    }
  }

  method RemoveSelf(nodes: seq<NetworkNode>, id: Key) returns (filtered: seq<NetworkNode>)
    ensures filtered == WithoutId(nodes, id)
  {
    filtered := [];
    for i := 0 to |nodes|
      invariant filtered == WithoutId(nodes[..i], id)
    {
      assert nodes[..i + 1][..i] == nodes[..i];
      if nodes[i].id != id {
        filtered := filtered + [nodes[i]];
      }
    }
    assert nodes[..|nodes|] == nodes;
  }

  lemma RoundsSnoc(self: Key, target: Key, states: seq<SearchState>, logs: seq<RoundLog>, log: RoundLog)
    requires Rounds(self, target, states, logs) && GoodRound(self, target, states[|logs|], log)
    ensures Rounds(self, target, states + [Advance(states[|logs|], log)], logs + [log])
  {
    hide GoodRound, Advance;
  }

  /** The searcher's table never lists the searcher, so only an empty table leaves nobody to ask. */
  lemma SeedsAreOthers(own: Table, target: Key, r: seq<NetworkNode>)
    requires TableInv(own) && IsFindClosest(Entries(own), target, K, r)
    ensures WithoutId(r, own.owner) == [] <==> Entries(own) == []
  {
    Closest.FindClosestIsBest(Entries(own), target, K, r);
    if r != [] {
      assert r[0] in r;
      Closest.FindClosestMembers(Entries(own), target, K, r, r[0]);
      EntryBucket(own, r[0]);
    }
  }

  ghost function KeyCount(): nat {
    Pow2(KEY_BITS)
  }

  lemma RoundUsesUpKeys(self: Key, target: Key, s: SearchState, log: RoundLog)
    requires GoodRound(self, target, s, log)
    ensures |s.visited| < |Advance(s, log).visited| <= KeyCount()
  {
    RoundVisitsMore(self, target, s, log);
    KeySetSize(Advance(s, log).visited);
  }

  method MarkVisited(visited: set<Key>, toQuery: seq<NetworkNode>) returns (marked: set<Key>)
    ensures marked == visited + Ids(toQuery)
  {
    marked := visited;
    for i := 0 to |toQuery|
      invariant marked == visited + Ids(toQuery[..i])
    {
      marked := marked + {toQuery[i].id};
      assert toQuery[..i + 1] == toQuery[..i] + [toQuery[i]];
    }
    assert toQuery[..|toQuery|] == toQuery;
  }

  /** The rounds had these answers, and the context was alive at the head of each. */
  ghost predicate AnsweredBy(net: Network, logs: seq<RoundLog>) {
    (forall r :: 0 <= r < |logs| ==> !net.cancelled(r))
    && forall r, i :: 0 <= r < |logs| && 0 <= i < |logs[r].answers| ==> logs[r].answers[i] == net.answer(r, i)
  }

  /** One round after its queries are picked. */
  method SearchRound(node: Node, target: Key, closest: seq<NetworkNode>, visited: set<Key>, toQuery: seq<NetworkNode>,
                     answers: seq<Answer>)
    returns (found: Option<ValueMeta>, closest': seq<NetworkNode>, visited': set<Key>, ghost log: RoundLog)
    requires node.Idle() && toQuery != [] && toQuery == Queried(SearchState(closest, visited)) && |answers| == |toQuery|
    modifies node`waiting, node.rt.buckets
    ensures node.Idle() && Taught(old(node.AddState()), node.AddState(), NamedBy(node.self.id, answers))
    ensures found.Some? ==> Found(found.value) in answers
    ensures found.None? ==>
      log.answers == answers && GoodRound(node.self.id, target, SearchState(closest, visited), log)
      && SearchState(closest', visited') == Advance(SearchState(closest, visited), log)
  {
    visited' := MarkVisited(visited, toQuery);
    var newNodes, value, late := QueryAll(node, visited, toQuery, answers);
    found, closest', log := value, closest, RoundLog(answers, late, []);
    if found.None? {
      var merged := SortByDistance(closest + newNodes, target);
      log := RoundLog(answers, late, merged);
      GatheredIgnoresSort(node.self.id, visited, toQuery, log, RoundLog(answers, late, []), |toQuery|);
      closest' := if |merged| > K then merged[..K] else merged;
    }
  }

  ghost predicate Ends(x: Execution, net: Network, outcome: Outcome)
    requires |x.states| == |x.logs| + 1
  {
    var last := x.states[|x.logs|].closest;
    match outcome
    case NoPeers => false
    case Value(value) =>
      x.ending.Returned? && x.ending.value == value && !net.cancelled(|x.logs|)
      && forall i :: 0 <= i < |x.ending.answers| ==> x.ending.answers[i] == net.answer(|x.logs|, i)
    case CancelledWith(closest) => x.ending.Cancelled? && net.cancelled(|x.logs|) && closest == last
    case Exhausted(closest) => x.ending.Done? && !net.cancelled(|x.logs|) && closest == last
  }

  /** The network's answers to the queries of one round. */
  function Ask(net: Network, round: nat, count: nat): (answers: seq<Answer>)
    ensures |answers| == count && forall i :: 0 <= i < count ==> answers[i] == net.answer(round, i)
  {
    seq(count, i requires 0 <= i < count => net.answer(round, i))
  }

  /** The search so far: rounds on the network's answers, of which s is the latest state. */
  ghost predicate Progress(own: Table, target: Key, net: Network, states: seq<SearchState>, logs: seq<RoundLog>,
                           s: SearchState) {
    Rounds(own.owner, target, states, logs) && Seeded(own, target, states[0]) && AnsweredBy(net, logs)
    && states[|logs|] == s
  }

  lemma ProgressStep(own: Table, target: Key, net: Network, states: seq<SearchState>, logs: seq<RoundLog>,
                     s: SearchState, log: RoundLog)
    requires Progress(own, target, net, states, logs, s) && GoodRound(own.owner, target, s, log)
    requires !net.cancelled(|logs|) && forall i :: 0 <= i < |log.answers| ==> log.answers[i] == net.answer(|logs|, i)
    ensures Progress(own, target, net, states + [Advance(s, log)], logs + [log], Advance(s, log))
  {
    hide GoodRound, Seeded, Advance;
    RoundsSnoc(own.owner, target, states, logs, log);
  }

  lemma ProgressEnds(own: Table, target: Key, find: bool, net: Network, states: seq<SearchState>, logs: seq<RoundLog>,
                     s: SearchState, ending: Ending, outcome: Outcome)
    requires Progress(own, target, net, states, logs, s)
    requires net.cancelled(|logs|) <==> ending.Cancelled?
    requires match ending
             case Done => Queried(s) == [] && outcome == Exhausted(s.closest)
             case Cancelled => outcome == CancelledWith(s.closest)
             case Returned(answers, value) =>
               find && Queried(s) != [] && |answers| == |Queried(s)|
               && Found(value) in answers && outcome == Value(value)
               && forall i :: 0 <= i < |answers| ==> answers[i] == net.answer(|logs|, i)
    ensures var x := Execution(states, logs, ending);
            Executes(own, target, find, x) && AnsweredBy(net, x.logs) && Ends(x, net, outcome)
  {
    hide GoodRound, Seeded, Advance;
  }

  /** One turn of the loop: it ends the search, or it takes one more round. */
  method SearchTurn(node: Node, ghost own: Table, target: Key, isFindValue: bool, net: Network, round: nat,
                    closest: seq<NetworkNode>, visited: set<Key>,
                    ghost states: seq<SearchState>, ghost logs: seq<RoundLog>)
    returns (ended: Option<Outcome>, closest': seq<NetworkNode>, visited': set<Key>,
             ghost log: RoundLog, ghost ending: Ending)
    requires node.Idle() && own.owner == node.self.id && round == |logs|
    requires !isFindValue ==> forall r, i :: !net.answer(r, i).Found?
    requires Progress(own, target, net, states, logs, SearchState(closest, visited))
    modifies node`waiting, node.rt.buckets
    ensures node.Idle()
    ensures Taught(old(node.AddState()), node.AddState(),
                   if ended.Some? then NamedAtEnd(own.owner, ending) else NamedBy(own.owner, log.answers))
    ensures ended.Some? ==> var x := Execution(states, logs, ending);
                            Executes(own, target, isFindValue, x) && AnsweredBy(net, logs) && Ends(x, net, ended.value)
    ensures ended.None? ==> var s' := SearchState(closest', visited');
                            Progress(own, target, net, states + [s'], logs + [log], s')
                            && |visited| < |visited'| <= KeyCount()
  {
    ghost var s := SearchState(closest, visited);
    ended, closest', visited', log, ending := None, closest, visited, RoundLog([], [], []), Done;
    hide GoodRound, Seeded, KeyCount, Progress, Executes, Ends, AnsweredBy, Rounds, TableInv, Taught, NamedBy;
    LedNowhere(node.AddState());
    TaughtNothing(node.AddState(), node.AddState());
    if net.cancelled(round) {
      ended, ending := Some(CancelledWith(closest)), Cancelled;
      ProgressEnds(own, target, isFindValue, net, states, logs, s, ending, ended.value);
      return;
    }
    var toQuery := PickUnvisited(closest, visited);
    if |toQuery| == 0 {
      ended := Some(Exhausted(closest));
      ProgressEnds(own, target, isFindValue, net, states, logs, s, ending, ended.value);
      return;
    }
    var answers := Ask(net, round, |toQuery|);
    var found;
    found, closest', visited', log := SearchRound(node, target, closest, visited, toQuery, answers);
    if found.Some? {
      ended, ending := Some(Value(found.value)), Returned(answers, found.value);
      ProgressEnds(own, target, isFindValue, net, states, logs, s, ending, ended.value);
    } else {
      ProgressStep(own, target, net, states, logs, s, log);
      RoundUsesUpKeys(own.owner, target, s, log);
    }
  }

  /** The rounds, until the context ends, a value comes back, or nothing is left to query. */
  method SearchLoop(node: Node, ghost own: Table, target: Key, isFindValue: bool, seeds: seq<NetworkNode>, net: Network)
    returns (outcome: Outcome, ghost x: Execution)
    requires node.Idle() && own == node.rt.View() && Seeded(own, target, SearchState(seeds, {}))
    requires !isFindValue ==> forall r, i :: !net.answer(r, i).Found?
    modifies node`waiting, node.rt.buckets
    ensures node.Idle() && Taught(old(node.AddState()), node.AddState(), NamedDuring(own.owner, x))
    ensures Executes(own, target, isFindValue, x) && AnsweredBy(net, x.logs) && Ends(x, net, outcome)
  {
    var closest, visited: set<Key>, round: nat := seeds, {}, 0;
    ghost var states, logs := [SearchState(closest, visited)], [];
    KeySetSize(visited);
    LedNowhere(node.AddState());
    TaughtNothing(node.AddState(), node.AddState());
    while true
      invariant node.Idle() && Taught(old(node.AddState()), node.AddState(), NamedInRounds(own.owner, logs))
      invariant |visited| <= KeyCount()
      invariant Progress(own, target, net, states, logs, SearchState(closest, visited)) && round == |logs|
      decreases KeyCount() - |visited|
    {
      hide KeyCount, Taught, Progress, Executes, Ends, AnsweredBy;
      ghost var before := node.AddState();
      var ended, closest', visited', log, ending :=
        SearchTurn(node, own, target, isFindValue, net, round, closest, visited, states, logs);
      TaughtMore(old(node.AddState()), before, node.AddState(), NamedInRounds(own.owner, logs),
                 if ended.Some? then NamedAtEnd(own.owner, ending) else NamedBy(own.owner, log.answers));
      if ended.Some? {
        return ended.value, Execution(states, logs, ending);
      }
      NamedInRoundsSnoc(own.owner, logs, log);
      closest, visited, round := closest', visited', round + 1;
      states, logs := states + [SearchState(closest, visited)], logs + [log];
    }
  }

  lemma NoAnswerWasFound(own: Table, target: Key, find: bool, net: Network, x: Execution)
    requires Executes(own, target, find, x) && AnsweredBy(net, x.logs)
    ensures forall n, i :: 0 <= n < |x.logs| && 0 <= i < |x.logs[n].answers| ==> !net.answer(n, i).Found?
  {
    forall n, i | 0 <= n < |x.logs| && 0 <= i < |x.logs[n].answers|
      ensures !net.answer(n, i).Found?
    {
      NotFoundMeansNoValue(own, target, find, x, n, i);
    }
  }

  /** The search as a whole. Whatever the network does, the method returns, and what it returns is what an execution
      of the rounds on the answers it was given ends with. Among the Adds that its own table has seen by
      then, the search's are of every node those answers named, and of no other. FindNode has no value to return. */
  method IterativeSearch(node: Node, target: Key, isFindValue: bool, net: Network)
    returns (outcome: Outcome, ghost x: Execution)
    requires node.Idle()
    requires !isFindValue ==> forall r, i :: !net.answer(r, i).Found?
    modifies node`waiting, node.rt.buckets
    ensures node.Idle() && Grown(old(node.rt.View()), node.rt.View())
    ensures outcome.NoPeers? <==> Entries(old(node.rt.View())) == []
    ensures outcome.NoPeers? ==> node.AddState() == old(node.AddState())
    ensures !outcome.NoPeers? ==> Taught(old(node.AddState()), node.AddState(), NamedDuring(node.self.id, x))
    ensures !outcome.NoPeers? ==>
      Executes(old(node.rt.View()), target, isFindValue, x) && AnsweredBy(net, x.logs) && Ends(x, net, outcome)
    ensures outcome.Exhausted? ==>
      forall n, i :: 0 <= n < |x.logs| && 0 <= i < |x.logs[n].answers| ==> !net.answer(n, i).Found?
    ensures !outcome.NoPeers? ==> (outcome.CancelledWith? <==> net.cancelled(|x.logs|))
  {
    ghost var own := node.rt.View();
    x := Execution([], [], Done);
    var nearest := node.rt.FindClosest(target, K);
    var closest := RemoveSelf(nearest, node.self.id);
    SeedsAreOthers(own, target, nearest);
    if |closest| == 0 {
      return NoPeers, x;
    }
    outcome, x := SearchLoop(node, own, target, isFindValue, closest, net);
    TaughtKeeps(old(node.AddState()), node.AddState(), NamedDuring(own.owner, x));
    if outcome.Exhausted? {
      NoAnswerWasFound(own, target, isFindValue, net, x);
    }
  }

  // ---- The callers of iterativeSearch ----

  lemma NeverEmpty(own: Table, target: Key, find: bool, x: Execution)
    requires Executes(own, target, find, x)
    ensures x.states[|x.logs|].closest != [] && Ascending(x.states[|x.logs|].closest, target)
  {
    SeedKeepsInv(own, target, x.states[0]);
    BestKnown(own.owner, target, x.states, x.logs, |x.logs|);
  }

  datatype StoreMessage = StoreMessage(to: NetworkNode, key: Key, value: ValueMeta)

  method SendStores(nodes: seq<NetworkNode>, key: Key, value: ValueMeta) returns (sent: seq<StoreMessage>)
    ensures |sent| == |nodes| && forall i :: 0 <= i < |nodes| ==> sent[i] == StoreMessage(nodes[i], key, value)
  {
    sent := [];
    for i := 0 to |nodes|
      invariant |sent| == i && forall j :: 0 <= j < i ==> sent[j] == StoreMessage(nodes[j], key, value)
    {
      sent := sent + [StoreMessage(nodes[i], key, value)];
    }
  }

  /** The STOREs StoreValue sends; none when the lookup had nobody to ask. A cancelled lookup still stores, and what
      becomes of the STOREs makes no difference to the result. */
  method StoreValue(node: Node, key: Key, value: ValueMeta, net: Network)
    returns (ok: bool, sent: seq<StoreMessage>, ghost x: Execution)
    requires node.Idle() && forall r, i :: !net.answer(r, i).Found?
    modifies node`waiting, node.rt.buckets
    ensures node.Idle()
    ensures ok <==> Entries(old(node.rt.View())) != []
    ensures !ok ==> sent == [] && node.AddState() == old(node.AddState())
    ensures ok ==> Taught(old(node.AddState()), node.AddState(), NamedDuring(node.self.id, x))
    ensures ok ==> Executes(old(node.rt.View()), key, false, x) && AnsweredBy(net, x.logs)
    ensures ok ==>
      var list := x.states[|x.logs|].closest;
      0 < |sent| == Min(STORE_K, |list|) == |StoreTargets(list)|
      && (forall i :: 0 <= i < |sent| ==> sent[i] == StoreMessage(list[i], key, value))
      && forall i, j :: 0 <= i < |sent| <= j < |list| ==>
                          GetKeyDistance(sent[i].to.id, key) <= GetKeyDistance(list[j].id, key)
  {
    ghost var own := node.rt.View();
    var outcome;
    outcome, x := IterativeSearch(node, key, false, net);
    hide Taught, NamedDuring, Executes, AnsweredBy, TableInv, Grown;
    sent := [];
    if outcome.NoPeers? {
      return false, sent, x;
    }
    NeverEmpty(own, key, false, x);
    var nodes := if outcome.CancelledWith? || outcome.Exhausted? then outcome.closest else [];
    if |nodes| > STORE_K {
      nodes := nodes[..STORE_K];
    }
    sent := SendStores(nodes, key, value);
    ok := true;
  }

  /** FindValue: the node's own storage first, then the network. */
  method FindValue(node: Node, key: Key, net: Network) returns (outcome: Outcome, ghost x: Execution)
    requires node.Idle()
    modifies node`waiting, node.rt.buckets
    ensures node.Idle()
    ensures key in node.storage ==> node.AddState() == old(node.AddState())
    ensures FindsValue(node.storage, old(node.rt.View()), key, net, outcome, x)
    ensures key !in node.storage && !outcome.NoPeers? ==>
      Taught(old(node.AddState()), node.AddState(), NamedDuring(node.self.id, x))
    ensures key !in node.storage && !outcome.NoPeers? ==>
      (outcome.Value? ==> exists i :: 0 <= i < |x.ending.answers| && net.answer(|x.logs|, i) == Found(outcome.value))
      && (outcome.Exhausted? <==> x.ending.Done?)
    ensures outcome.Exhausted? ==>
      forall n, i :: 0 <= n < |x.logs| && 0 <= i < |x.logs[n].answers| ==> !net.answer(n, i).Found?
  {
    if key in node.storage {
      return Value(node.storage[key]), Execution([], [], Done);
    }
    outcome, x := IterativeSearch(node, key, true, net);
    if outcome.Value? {
      ghost var i :| 0 <= i < |x.ending.answers| && x.ending.answers[i] == Found(outcome.value);
      assert net.answer(|x.logs|, i) == Found(outcome.value);
    }
  }

  // ---- The object's searches on a network ----

  /** The network answers every query as a healthy table of the queried node would. */
  ghost predicate HonestNetwork(alive: set<Key>, self: Key, target: Key, net: Network, x: Execution) {
    |x.states| == |x.logs| + 1
    && forall n, i :: 0 <= n < |x.logs| && 0 <= i < |Queried(x.states[n])|
         ==> Honest(alive, self, target, Queried(x.states[n])[i], net.answer(n, i))
  }

  /** What IterativeSearch returns on a healthy network when it runs to its end: the nearest node first. Not even a
      cancelled search with rounds enough behind it returns another head. */
  lemma OutcomeIsNearest(alive: set<Key>, own: Table, target: Key, find: bool, net: Network, g: Key, x: Execution,
                         outcome: Outcome)
    requires Executes(own, target, find, x) && AnsweredBy(net, x.logs) && Ends(x, net, outcome)
    requires Healthy(alive, own) && IsNearest(alive, own.owner, target, g)
    requires HonestNetwork(alive, own.owner, target, net, x)
    ensures outcome.Exhausted? ==> outcome.closest != [] && outcome.closest[0].id == g
    ensures outcome.CancelledWith? && |x.logs| >= KEY_BITS ==> outcome.closest != [] && outcome.closest[0].id == g
  {
    forall n | 0 <= n < |x.logs|
      ensures HonestRound(alive, own.owner, target, x.states[n], x.logs[n])
    {
      assert GoodRound(own.owner, target, x.states[n], x.logs[n]);
    }
    assert HonestRounds(alive, own.owner, target, x.states, x.logs);
    SearchFindsNearest(alive, own, target, g, x.states, x.logs, |x.logs|);
  }

  /** What FindValue promises of its outcome, storage being the node's own and own its table. */
  ghost predicate FindsValue(storage: map<Key, ValueMeta>, own: Table, key: Key, net: Network, outcome: Outcome,
                             x: Execution) {
    if key in storage then outcome == Value(storage[key])
    else
      (outcome.NoPeers? <==> Entries(own) == [])
      && (!outcome.NoPeers? ==> Executes(own, key, true, x) && AnsweredBy(net, x.logs) && Ends(x, net, outcome))
  }

  /** Store, then find, as the callers of the object see it: A's StoreValue ran to its end with every answer true, and
      its STOREs were handled before B calls FindValue, at a moment when its storage is as at now. If B's context is not
      cancelled and the answers it is given are true, FindValue returns the value. */
  lemma FindValueReturnsStored(ws: seq<World>, steps: seq<Step>, since: nat, key: Key, value: ValueMeta, g: Key,
                               ownA: Table, xA: Execution, ownB: Table, xB: Execution, now: nat,
                               net: Network, outcome: Outcome)
    requires LiveHistory(ws, steps) && HealthyWorld(ws[0]) && StoredWereCalled(ws[0])
             && OnlyValue(ws, steps, key, value)
    requires IsClosest(ws[0].tables.Keys, key, g) && g != ownA.owner
    requires OwnTableAt(ws, 0, ownA)
    requires Executes(ownA, key, false, xA) && TruthfulExecution(ws, 0, key, false, xA) && xA.ending.Done?
    requires StoreDelivered(steps, since, StoreTargets(xA.states[|xA.logs|].closest), key, value)
    requires OwnTableAt(ws, since, ownB) && since <= now < |ws| && ownB.owner in ws[now].stores
    requires FindsValue(ws[now].stores[ownB.owner], ownB, key, net, outcome, xB) && !outcome.CancelledWith?
    requires key !in ws[now].stores[ownB.owner] && !outcome.NoPeers? ==>
               TruthfulExecution(ws, since, key, true, xB)
    ensures outcome == Value(value)
  {
    hide LiveHistory, HealthyWorld, TruthfulExecution, Executes, OnlyValue, StoreDelivered, OwnTableAt, FindsValue;
    hide StoredWereCalled, IsClosest, Entries, StoreTargets;
    StoreThenFind(ws, steps, since, key, value, g, ownA, xA, ownB, xB, now);
    BothHavePeers(ws, steps, since, key, g, ownA, ownB);
    OutcomeIsValue(ws[now].stores[ownB.owner], ownB, key, net, outcome, xB, value);
  }

  lemma BothHavePeers(ws: seq<World>, steps: seq<Step>, since: nat, key: Key, g: Key, ownA: Table, ownB: Table)
    requires LiveHistory(ws, steps) && HealthyWorld(ws[0]) && IsClosest(ws[0].tables.Keys, key, g) && g != ownA.owner
    requires OwnTableAt(ws, 0, ownA) && OwnTableAt(ws, since, ownB)
    ensures Entries(ownB) != []
  {
    OwnTableIsHealthy(ws, steps, 0, ownA);
    OwnTableIsHealthy(ws, steps, since, ownB);
    var net := ws[0].tables.Keys;
    assert ownA.owner in net && g in net;
    HasPeers(net, ownB);
  }

  lemma OutcomeIsValue(storage: map<Key, ValueMeta>, own: Table, key: Key, net: Network, outcome: Outcome,
                       x: Execution, value: ValueMeta)
    requires FindsValue(storage, own, key, net, outcome, x) && !outcome.CancelledWith? && Entries(own) != []
    requires key in storage ==> storage[key] == value
    requires key !in storage && !outcome.NoPeers? && Executes(own, key, true, x) && !x.ending.Cancelled?
             ==> x.ending.Returned? && x.ending.value == value
    ensures outcome == Value(value)
  {
    hide AnsweredBy;
  }

  /** All a search teaches the searcher's table on a healthy network is live nodes. */
  lemma TaughtAreLive(ws: seq<World>, steps: seq<Step>, since: nat, own: Table, target: Key, find: bool, x: Execution,
                      r: NetworkNode)
    requires LiveHistory(ws, steps) && HealthyWorld(ws[0])
    requires Executes(own, target, find, x) && TruthfulExecution(ws, since, target, find, x)
    requires r in NamedDuring(own.owner, x)
    ensures r.id in ws[0].tables && r.id != own.owner
  {
    if r in NamedAtEnd(own.owner, x.ending) {
      NamedByAreLive(ws, steps, since, own.owner, target, find, Queried(x.states[|x.logs|]), x.ending.answers, r);
    } else {
      var n := NamedInRound(own.owner, x.logs, r);
      NamedByAreLive(ws, steps, since, own.owner, target, find, Queried(x.states[n]), x.logs[n].answers, r);
    }
  }

  lemma {:induction false} NamedInRound(self: Key, logs: seq<RoundLog>, r: NetworkNode) returns (n: nat)
    requires r in NamedInRounds(self, logs)
    ensures n < |logs| && r in NamedBy(self, logs[n].answers)
  {
    n := |logs| - 1;
    if r !in NamedBy(self, logs[n].answers) {
      n := NamedInRound(self, logs[..n], r);
    }
  }

  lemma NamedByAreLive(ws: seq<World>, steps: seq<Step>, since: nat, self: Key, target: Key, find: bool,
                       q: seq<NetworkNode>, answers: seq<Answer>, r: NetworkNode)
    requires LiveHistory(ws, steps) && HealthyWorld(ws[0])
    requires TruthfulAnswers(ws, since, target, find, q, answers) && r in NamedBy(self, answers)
    ensures r.id in ws[0].tables && r.id != self
  {
    var i :| 0 <= i < |answers| && r in NamedIn(self, answers[i]);
    NamedAreLive(ws, steps, since, target, find, q[i], answers[i], r);
  }
}
