/** Many nodes storing and finding values over each other's handlers: dht/node.go and the callers in dht/logic.go. */
module World {
  import opened Keys
  import opened Options
  import opened Tables
  import opened Adds
  import opened Search
  import opened Copies
  import opened Convergence
  import Closest

  const STORE_K: nat := 3

  /** Every node's routing table, with the Adds in progress on it, and storage; and the StoreValue calls made so far. */
  datatype World = World(tables: map<Key, State>, stores: map<Key, map<Key, ValueMeta>>, calls: set<(Key, ValueMeta)>)

  /** One locked section of an Add; a StoreValue call; a STORE handled; a local deletion. */
  datatype Step =
    | Observe(n: Key, e: Event)
    | StoreCall(key: Key, value: ValueMeta)
    | Put(n: Key, key: Key, value: ValueMeta)
    | Delete(n: Key, key: Key)

  /** Adds overlap as they like, and any contact may turn up; a STORE carries only what was asked to be stored. */
  predicate CanStep(w: World, step: Step) {
    match step
    case Observe(n, e) => n in w.tables && Enabled(w.tables[n], e)
    case StoreCall(_, _) => true
    case Put(n, key, value) => n in w.stores && (key, value) in w.calls
    case Delete(n, _) => n in w.stores
  }

  function Stepped(w: World, step: Step): World
    requires CanStep(w, step)
  {
    match step
    case Observe(n, e) => w.(tables := w.tables[n := Next(w.tables[n], e)])
    case StoreCall(key, value) => w.(calls := w.calls + {(key, value)})
    case Put(n, key, value) => w.(stores := w.stores[n := w.stores[n][key := value]])
    case Delete(n, key) => w.(stores := w.stores[n := w.stores[n] - {key}])
  }

  ghost predicate History(ws: seq<World>, steps: seq<Step>) {
    |ws| == |steps| + 1
    && forall t :: 0 <= t < |steps| ==> CanStep(ws[t], steps[t]) && ws[t + 1] == Stepped(ws[t], steps[t])
  }

  /** An Add is of a live contact. */
  predicate IsLive(w: World, step: Step) {
    step.Observe? && step.e.Begin? ==> step.e.node.id in w.tables
  }

  ghost predicate LiveHistory(ws: seq<World>, steps: seq<Step>) {
    History(ws, steps) && forall t :: 0 <= t < |steps| ==> IsLive(ws[t], steps[t])
  }

  /** Fewer than K Adds of one ID wait for their pings at once in one table. */
  predicate IsOrderly(w: World, step: Step) {
    step.Observe? && step.n in w.tables ==> WithinLimit(w.tables[step.n], step.e, K - 1)
  }

  ghost predicate OrderlyHistory(ws: seq<World>, steps: seq<Step>) {
    LiveHistory(ws, steps) && UncrowdedWorld(ws[0]) && forall t :: 0 <= t < |steps| ==> IsOrderly(ws[t], steps[t])
  }

  /** What a search for target by self needs of the history: only a searcher nearer to the target than all others needs
      the limit on overlapping Adds. */
  ghost predicate ServesSearch(ws: seq<World>, steps: seq<Step>, self: Key, target: Key) {
    LiveHistory(ws, steps) && (Outdone(ws[0].tables.Keys, self, target) || OrderlyHistory(ws, steps))
  }

  // ---- The network hypothesis lasts ----

  ghost predicate HealthyNode(net: set<Key>, n: Key, s: State) {
    s.table.owner == n && Inv(s) && Complete(net, s.table) && LiveContacts(net, s)
  }

  ghost predicate HealthyWorld(w: World) {
    w.stores.Keys == w.tables.Keys && forall n :: n in w.tables ==> HealthyNode(w.tables.Keys, n, w.tables[n])
  }

  /** No table lists an ID so often that the Adds waiting for it could fill a bucket with it. */
  ghost predicate UncrowdedWorld(w: World) {
    forall n :: n in w.tables ==> CopyInv(w.tables[n])
  }

  /** A network of complete tables is healthy before any Add is in progress, and uncrowded if IDs are unique. */
  lemma CalmNodeIsHealthy(net: set<Key>, s: State)
    requires TableInv(s.table) && Complete(net, s.table) && s.pending == map[]
    ensures HealthyNode(net, s.table.owner, s) && (Unique(s.table) ==> CopyInv(s))
  {
    if Unique(s.table) {
      UniqueHasCopyInv(s);
    }
  }

  lemma NodeStaysHealthy(net: set<Key>, n: Key, s: State, e: Event)
    requires HealthyNode(net, n, s) && Enabled(s, e) && (e.Begin? ==> e.node.id in net)
    ensures HealthyNode(net, n, Next(s, e))
  {
    StepKeepsInv(s, e);
    StepKeepsComplete(net, s, e);
  }

  lemma UpdateKeepsHealthy(w: World, n: Key, s: State)
    requires HealthyWorld(w) && n in w.tables && HealthyNode(w.tables.Keys, n, s)
    ensures HealthyWorld(w.(tables := w.tables[n := s])) && w.tables[n := s].Keys == w.tables.Keys
  {
    hide HealthyNode;
    var tables := w.tables[n := s];
    assert tables.Keys == w.tables.Keys;
    forall m | m in tables
      ensures HealthyNode(tables.Keys, m, tables[m])
    {
      assert m != n ==> HealthyNode(w.tables.Keys, m, w.tables[m]);
    }
  }

  lemma ObserveKeepsHealthy(w: World, n: Key, e: Event)
    requires HealthyWorld(w) && CanStep(w, Observe(n, e)) && IsLive(w, Observe(n, e))
    ensures HealthyWorld(Stepped(w, Observe(n, e))) && Stepped(w, Observe(n, e)).tables.Keys == w.tables.Keys
  {
    assert HealthyNode(w.tables.Keys, n, w.tables[n]);
    var s := w.tables[n];
    NodeStaysHealthy(w.tables.Keys, n, s, e);
    UpdateKeepsHealthy(w, n, Next(s, e));
  }

  /** The hypothesis of the convergence theorem is an invariant of the code's own steps. */
  lemma StepKeepsHealthy(w: World, step: Step)
    requires HealthyWorld(w) && CanStep(w, step) && IsLive(w, step)
    ensures HealthyWorld(Stepped(w, step)) && Stepped(w, step).tables.Keys == w.tables.Keys
  {
    if step.Observe? {
      ObserveKeepsHealthy(w, step.n, step.e);
    } else {
      hide HealthyNode;
      assert Stepped(w, step).tables == w.tables && Stepped(w, step).stores.Keys == w.stores.Keys;
    }
  }

  lemma {:induction false} HistoryIsHealthy(ws: seq<World>, steps: seq<Step>, t: nat)
    requires LiveHistory(ws, steps) && HealthyWorld(ws[0]) && t <= |steps|
    ensures HealthyWorld(ws[t]) && ws[t].tables.Keys == ws[0].tables.Keys
    decreases t
  {
    if t > 0 {
      HistoryIsHealthy(ws, steps, t - 1);
      StepKeepsHealthy(ws[t - 1], steps[t - 1]);
    }
  }

  lemma StepKeepsUncrowded(w: World, step: Step)
    requires HealthyWorld(w) && UncrowdedWorld(w) && CanStep(w, step) && IsOrderly(w, step)
    ensures UncrowdedWorld(Stepped(w, step))
  {
    if step.Observe? {
      var s := w.tables[step.n];
      assert HealthyNode(w.tables.Keys, step.n, s) && CopyInv(s);
      StepKeepsCopyInv(s, step.e);
    }
    hide CopyInv, Next, HealthyNode;
  }

  lemma {:induction false} HistoryIsUncrowded(ws: seq<World>, steps: seq<Step>, t: nat)
    requires OrderlyHistory(ws, steps) && HealthyWorld(ws[0]) && t <= |steps|
    ensures UncrowdedWorld(ws[t])
    decreases t
  {
    if t > 0 {
      HistoryIsUncrowded(ws, steps, t - 1);
      HistoryIsHealthy(ws, steps, t - 1);
      StepKeepsUncrowded(ws[t - 1], steps[t - 1]);
    }
  }

  // ---- Answers and searches ----

  /** What OnFindNode, or OnFindValue when find is set, answers if it finds its storage as in w and then its table as in
      w'. */
  ghost predicate Truthful(w: World, w': World, target: Key, find: bool, n: NetworkNode, a: Answer) {
    n.id in w.stores && n.id in w'.tables
    && if find && target in w.stores[n.id] then a == Found(w.stores[n.id][target])
       else a.Nodes? && IsFindClosest(Entries(w'.tables[n.id].table), target, K, a.res)
  }

  ghost predicate TruthfulSince(ws: seq<World>, since: nat, target: Key, find: bool, n: NetworkNode, a: Answer) {
    exists t, u :: since <= t <= u < |ws| && Truthful(ws[t], ws[u], target, find, n, a)
  }

  /** Done: nothing is left to query. Cancelled: the context ended. Returned: a round brought values back and one of
      them was returned. */
  datatype Ending = Done | Cancelled | Returned(answers: seq<Answer>, value: ValueMeta)

  datatype Execution = Execution(states: seq<SearchState>, logs: seq<RoundLog>, ending: Ending)

  /** A run of iterativeSearch by the owner of own, which was its table when it picked its seeds. */
  ghost predicate Executes(own: Table, target: Key, find: bool, x: Execution) {
    Rounds(own.owner, target, x.states, x.logs) && Seeded(own, target, x.states[0])
    && var last := x.states[|x.logs|];
       match x.ending
       case Done => Queried(last) == []
       case Cancelled => true
       case Returned(answers, value) =>
         find && Queried(last) != [] && |answers| == |Queried(last)| && Found(value) in answers
  }

  ghost predicate TruthfulAnswers(ws: seq<World>, since: nat, target: Key, find: bool, q: seq<NetworkNode>,
                                  answers: seq<Answer>) {
    |answers| == |q| && forall i :: 0 <= i < |q| ==> TruthfulSince(ws, since, target, find, q[i], answers[i])
  }

  ghost predicate TruthfulExecution(ws: seq<World>, since: nat, target: Key, find: bool, x: Execution) {
    |x.states| == |x.logs| + 1
    && (forall n :: 0 <= n < |x.logs| ==>
          TruthfulAnswers(ws, since, target, find, Queried(x.states[n]), x.logs[n].answers))
    && (x.ending.Returned? ==> TruthfulAnswers(ws, since, target, find, Queried(x.states[|x.logs|]), x.ending.answers))
  }

  lemma TruthfulIsHonest(ws: seq<World>, steps: seq<Step>, since: nat, self: Key, target: Key, find: bool,
                         n: NetworkNode, a: Answer)
    requires ServesSearch(ws, steps, self, target) && HealthyWorld(ws[0])
    requires TruthfulSince(ws, since, target, find, n, a) && !a.Found?
    ensures Honest(ws[0].tables.Keys, self, target, n, a)
  {
    var t, u :| since <= t <= u < |ws| && Truthful(ws[t], ws[u], target, find, n, a);
    HistoryIsHealthy(ws, steps, u);
    var table := ws[u].tables[n.id].table;
    assert HealthyNode(ws[0].tables.Keys, n.id, ws[u].tables[n.id]);
    if !Outdone(ws[0].tables.Keys, self, target) {
      HistoryIsUncrowded(ws, steps, u);
      CopyInvNotFlooded(ws[u].tables[n.id], self);
    }
    assert Healthy(ws[0].tables.Keys, table);
  }

  /** Whoever an answer names is live, so a searcher that Adds those nodes Adds only live contacts. */
  lemma NamedAreLive(ws: seq<World>, steps: seq<Step>, since: nat, target: Key, find: bool, n: NetworkNode, a: Answer,
                     r: NetworkNode)
    requires LiveHistory(ws, steps) && HealthyWorld(ws[0])
    requires TruthfulSince(ws, since, target, find, n, a) && a.Nodes? && r in a.res
    ensures r.id in ws[0].tables
  {
    var t, u :| since <= t <= u < |ws| && Truthful(ws[t], ws[u], target, find, n, a);
    HistoryIsHealthy(ws, steps, u);
    var table := ws[u].tables[n.id].table;
    assert HealthyNode(ws[0].tables.Keys, n.id, ws[u].tables[n.id]);
    Closest.FindClosestMembers(Entries(table), target, K, a.res, r);
    EntriesAreLive(ws[0].tables.Keys, table, r);
  }

  lemma TruthfulRoundsAreHonest(ws: seq<World>, steps: seq<Step>, since: nat, own: Table, target: Key, find: bool,
                                x: Execution)
    requires ServesSearch(ws, steps, own.owner, target) && HealthyWorld(ws[0])
    requires Executes(own, target, find, x) && TruthfulExecution(ws, since, target, find, x)
    ensures HonestRounds(ws[0].tables.Keys, own.owner, target, x.states, x.logs)
  {
    forall n | 0 <= n < |x.logs|
      ensures HonestRound(ws[0].tables.Keys, own.owner, target, x.states[n], x.logs[n])
    {
      RoundIsHonest(ws, steps, since, own.owner, target, find, x.states[n], x.logs[n]);
    }
  }

  lemma RoundIsHonest(ws: seq<World>, steps: seq<Step>, since: nat, self: Key, target: Key, find: bool,
                      s: SearchState, log: RoundLog)
    requires ServesSearch(ws, steps, self, target) && HealthyWorld(ws[0])
    requires GoodRound(self, target, s, log) && TruthfulAnswers(ws, since, target, find, Queried(s), log.answers)
    ensures HonestRound(ws[0].tables.Keys, self, target, s, log)
  {
    forall i | 0 <= i < |Queried(s)|
      ensures Honest(ws[0].tables.Keys, self, target, Queried(s)[i], log.answers[i])
    {
      TruthfulIsHonest(ws, steps, since, self, target, find, Queried(s)[i], log.answers[i]);
    }
  }

  ghost predicate OwnTableAt(ws: seq<World>, since: nat, own: Table) {
    exists t :: since <= t < |ws| && own.owner in ws[t].tables && own == ws[t].tables[own.owner].table
  }

  lemma OwnTableIsHealthy(ws: seq<World>, steps: seq<Step>, since: nat, own: Table)
    requires LiveHistory(ws, steps) && HealthyWorld(ws[0]) && OwnTableAt(ws, since, own)
    ensures Healthy(ws[0].tables.Keys, own)
  {
    var t :| since <= t < |ws| && own.owner in ws[t].tables && own == ws[t].tables[own.owner].table;
    HistoryIsHealthy(ws, steps, t);
    assert HealthyNode(ws[0].tables.Keys, own.owner, ws[t].tables[own.owner]);
  }

  // ---- What a storage holds ----

  /** The last step before t that put or deleted key at n. */
  function LastWrite(steps: seq<Step>, t: nat, n: Key, key: Key): (last: Option<nat>)
    requires t <= |steps|
    ensures last.Some? ==> last.value < t && (steps[last.value].Put? || steps[last.value].Delete?)
    decreases t
  {
    if t == 0 then None
    else
      var step := steps[t - 1];
      if (step.Put? || step.Delete?) && step.n == n && step.key == key then Some(t - 1)
      else LastWrite(steps, t - 1, n, key)
  }

  /** A node holds for a key what was put there last, unless it was deleted since, or what it held at first. */
  lemma {:induction false} StorageIsLastWrite(ws: seq<World>, steps: seq<Step>, t: nat, n: Key, key: Key)
    requires History(ws, steps) && t <= |steps| && n in ws[0].stores
    ensures n in ws[t].stores
    ensures match LastWrite(steps, t, n, key)
            case None => if key in ws[0].stores[n]
                         then key in ws[t].stores[n] && ws[t].stores[n][key] == ws[0].stores[n][key]
                         else key !in ws[t].stores[n]
            case Some(m) => if steps[m].Put?
                            then key in ws[t].stores[n] && ws[t].stores[n][key] == steps[m].value
                            else key !in ws[t].stores[n]
    decreases t
  {
    if t > 0 {
      StorageIsLastWrite(ws, steps, t - 1, n, key);
      assert CanStep(ws[t - 1], steps[t - 1]) && ws[t] == Stepped(ws[t - 1], steps[t - 1]);
    }
  }

  /** Steps keep to their own part: tables change by locked sections only, and only at the node they are for. */
  lemma StepsKeepApart(w: World, step: Step, n: Key)
    requires CanStep(w, step)
    ensures Stepped(w, step).tables.Keys == w.tables.Keys && Stepped(w, step).stores.Keys == w.stores.Keys
    ensures n in w.tables ==>
              Stepped(w, step).tables[n]
              == if step.Observe? && step.n == n then Next(w.tables[n], step.e) else w.tables[n]
    ensures Stepped(w, step).calls == if step.StoreCall? then w.calls + {(step.key, step.value)} else w.calls
  {
  }

  /** Every live node takes what was asked to be stored, whoever asked, and lets it be found until it is deleted. */
  lemma StoringIsOpen(w: World, n: Key, key: Key, value: ValueMeta, asked: NetworkNode, a: Answer)
    returns (w1: World, w2: World, w3: World)
    requires n in w.stores && n in w.tables && asked.id == n
    ensures History([w, w1, w2, w3], [StoreCall(key, value), Put(n, key, value), Delete(n, key)])
    ensures Truthful(w2, w2, key, true, asked, a) <==> a == Found(value)
    ensures Truthful(w3, w3, key, true, asked, a) ==> a.Nodes?
  {
    w1 := Stepped(w, StoreCall(key, value));
    w2 := Stepped(w1, Put(n, key, value));
    w3 := Stepped(w2, Delete(n, key));
  }

  /** Any first section of an Add can happen in any table at any time, and any second one while its Add waits. */
  lemma ObservingIsOpen(w: World, n: Key, e: Event)
    requires n in w.tables
    ensures CanStep(w, Observe(n, e))
       <==> if e.Begin? then e.tid !in w.tables[n].pending else e.tid in w.tables[n].pending
  {
  }

  // ---- Where values come from ----

  ghost predicate StoredWereCalled(w: World) {
    forall n, key :: n in w.stores && key in w.stores[n] ==> (key, w.stores[n][key]) in w.calls
  }

  lemma {:induction false} StoresHoldCalls(ws: seq<World>, steps: seq<Step>, t: nat)
    requires History(ws, steps) && StoredWereCalled(ws[0]) && t <= |steps|
    ensures StoredWereCalled(ws[t])
    decreases t
  {
    if t > 0 {
      StoresHoldCalls(ws, steps, t - 1);
    }
  }

  lemma {:induction false} CallWasMade(ws: seq<World>, steps: seq<Step>, t: nat, key: Key, value: ValueMeta)
    requires History(ws, steps) && ws[0].calls == {} && t <= |steps| && (key, value) in ws[t].calls
    ensures exists m :: 0 <= m < t && steps[m] == StoreCall(key, value)
    decreases t
  {
    if steps[t - 1] != StoreCall(key, value) {
      CallWasMade(ws, steps, t - 1, key, value);
    }
  }

  /** Every value a FindValue returns, from its own storage or from an answer, was the argument of an earlier
      StoreValue for the same key. */
  lemma ValuesComeFromStores(ws: seq<World>, steps: seq<Step>, t: nat, n: Key, key: Key)
    requires History(ws, steps) && ws[0].calls == {} && StoredWereCalled(ws[0]) && t <= |steps|
    requires n in ws[t].stores && key in ws[t].stores[n]
    ensures exists m :: 0 <= m < t && steps[m] == StoreCall(key, ws[t].stores[n][key])
  {
    StoresHoldCalls(ws, steps, t);
    CallWasMade(ws, steps, t, key, ws[t].stores[n][key]);
  }

  lemma ReturnedValuesComeFromStores(ws: seq<World>, steps: seq<Step>, own: Table, key: Key, x: Execution)
    requires History(ws, steps) && ws[0].calls == {} && StoredWereCalled(ws[0])
    requires Executes(own, key, true, x) && TruthfulExecution(ws, 0, key, true, x) && x.ending.Returned?
    ensures exists m :: 0 <= m < |steps| && steps[m] == StoreCall(key, x.ending.value)
  {
    var t, n := FoundIsStored(ws, 0, own, key, x);
    ValuesComeFromStores(ws, steps, t, n, key);
  }

  lemma FoundIsStored(ws: seq<World>, since: nat, own: Table, key: Key, x: Execution) returns (t: nat, n: Key)
    requires Executes(own, key, true, x) && TruthfulExecution(ws, since, key, true, x) && x.ending.Returned?
    ensures since <= t < |ws| && n in ws[t].stores && key in ws[t].stores[n] && ws[t].stores[n][key] == x.ending.value
  {
    var q := Queried(x.states[|x.logs|]);
    var i :| 0 <= i < |x.ending.answers| && x.ending.answers[i] == Found(x.ending.value);
    assert TruthfulSince(ws, since, key, true, q[i], x.ending.answers[i]);
    var u;
    t, u :| since <= t <= u < |ws| && Truthful(ws[t], ws[u], key, true, q[i], x.ending.answers[i]);
    n := q[i].id;
  }

  /** A search that goes on after a round, or ends with "not found", was answered no value in it. */
  lemma NotFoundMeansNoValue(own: Table, key: Key, find: bool, x: Execution, n: nat, i: nat)
    requires Executes(own, key, find, x) && n < |x.logs| && i < |x.logs[n].answers|
    ensures !x.logs[n].answers[i].Found?
  {
    assert GoodRound(own.owner, key, x.states[n], x.logs[n]);
  }

  // ---- Store, then find ----

  function StoreTargets(closest: seq<NetworkNode>): seq<NetworkNode> {
    closest[..Min(STORE_K, |closest|)]
  }

  /** The only value stored for key, before or during the history, is value; and it is never deleted. */
  ghost predicate OnlyValue(ws: seq<World>, steps: seq<Step>, key: Key, value: ValueMeta) {
    ws != []
    && (forall v :: (key, v) in ws[0].calls ==> v == value)
    && forall t :: 0 <= t < |steps| ==>
         (steps[t].StoreCall? && steps[t].key == key ==> steps[t].value == value)
         && !(steps[t].Delete? && steps[t].key == key)
  }

  lemma {:induction false} OnlyValueIsCalled(ws: seq<World>, steps: seq<Step>, key: Key, value: ValueMeta, t: nat,
                                             v: ValueMeta)
    requires History(ws, steps) && OnlyValue(ws, steps, key, value) && t <= |steps| && (key, v) in ws[t].calls
    ensures v == value
    decreases t
  {
    if t > 0 && steps[t - 1] != StoreCall(key, v) {
      OnlyValueIsCalled(ws, steps, key, value, t - 1, v);
    }
  }

  lemma OnlyValueIsStored(ws: seq<World>, steps: seq<Step>, key: Key, value: ValueMeta, t: nat, n: Key)
    requires History(ws, steps) && OnlyValue(ws, steps, key, value) && StoredWereCalled(ws[0]) && t <= |steps|
    requires n in ws[t].stores && key in ws[t].stores[n]
    ensures ws[t].stores[n][key] == value
  {
    StoresHoldCalls(ws, steps, t);
    OnlyValueIsCalled(ws, steps, key, value, t, ws[t].stores[n][key]);
  }

  /** Once a node has handled the STORE, it holds the value. */
  lemma {:induction false} StoredStays(ws: seq<World>, steps: seq<Step>, key: Key, value: ValueMeta, n: Key, m: nat,
                                       t: nat)
    requires History(ws, steps) && OnlyValue(ws, steps, key, value)
    requires m < t <= |steps| && steps[m] == Put(n, key, value)
    ensures n in ws[t].stores && key in ws[t].stores[n]
    decreases t
  {
    if m + 1 < t {
      StoredStays(ws, steps, key, value, n, m, t - 1);
    }
  }

  /** The nodes StoreValue sends to have all handled the STORE before time since. */
  ghost predicate StoreDelivered(steps: seq<Step>, since: nat, targets: seq<NetworkNode>, key: Key, value: ValueMeta) {
    since <= |steps|
    && forall n :: n in targets ==> exists m :: 0 <= m < since && steps[m] == Put(n.id, key, value)
  }

  lemma NewlyVisited(s: SearchState, log: RoundLog, id: Key) returns (i: nat)
    requires id in Advance(s, log).visited && id !in s.visited
    ensures i < |Queried(s)| && Queried(s)[i].id == id
  {
    var q :| q in Queried(s) && q.id == id;
    i :| 0 <= i < |Queried(s)| && Queried(s)[i] == q;
  }

  lemma {:induction false} VisitedWasQueried(self: Key, target: Key, states: seq<SearchState>, logs: seq<RoundLog>,
                                             n: nat, id: Key)
    returns (m: nat, i: nat)
    requires Rounds(self, target, states, logs) && states[0].visited == {} && n <= |logs| && id in states[n].visited
    ensures m < n && i < |Queried(states[m])| && Queried(states[m])[i].id == id
    decreases n
  {
    assert states[n] == Advance(states[n - 1], logs[n - 1]);
    if id in states[n - 1].visited {
      m, i := VisitedWasQueried(self, target, states, logs, n - 1, id);
    } else {
      m := n - 1;
      i := NewlyVisited(states[m], logs[m], id);
    }
  }

  /** A search that runs to its end on a healthy network ends with the nearest node first, and has asked it. */
  lemma SearchEndsAtNearest(ws: seq<World>, steps: seq<Step>, since: nat, own: Table, key: Key, find: bool, g: Key,
                            x: Execution)
    requires ServesSearch(ws, steps, own.owner, key) && HealthyWorld(ws[0]) && OwnTableAt(ws, since, own)
    requires IsNearest(ws[0].tables.Keys, own.owner, key, g)
    requires Executes(own, key, find, x) && TruthfulExecution(ws, since, key, find, x) && x.ending.Done?
    ensures var last := x.states[|x.logs|];
            last.closest != [] && last.closest[0].id == g && g in last.visited
  {
    OwnTableIsHealthy(ws, steps, since, own);
    TruthfulRoundsAreHonest(ws, steps, since, own, key, find, x);
    var net := ws[0].tables.Keys;
    assert Seeded(own, key, x.states[0]) && Queried(x.states[|x.logs|]) == [];
    hide LiveHistory, ServesSearch, HealthyWorld, TruthfulExecution, Executes;
    hide HonestRounds, Seeded, Healthy, IsNearest, OwnTableAt;
    SearchFindsNearest(net, own, key, g, x.states, x.logs, |x.logs|);
  }

  lemma HeadIsTarget(closest: seq<NetworkNode>)
    requires closest != []
    ensures closest[0] in StoreTargets(closest)
  {
    assert StoreTargets(closest)[0] == closest[0];
  }

  /** A search for a value that the nearest node holds does not come back empty-handed. */
  lemma SearchReturnsStored(ws: seq<World>, steps: seq<Step>, since: nat, own: Table, key: Key, value: ValueMeta,
                            g: Key, x: Execution)
    requires ServesSearch(ws, steps, own.owner, key) && HealthyWorld(ws[0]) && StoredWereCalled(ws[0])
             && OnlyValue(ws, steps, key, value)
    requires OwnTableAt(ws, since, own) && IsNearest(ws[0].tables.Keys, own.owner, key, g)
    requires forall t :: since <= t < |ws| ==> g in ws[t].stores && key in ws[t].stores[g]
    requires Executes(own, key, true, x) && TruthfulExecution(ws, since, key, true, x) && !x.ending.Cancelled?
    ensures x.ending.Returned? && x.ending.value == value
  {
    if x.ending.Done? {
      SearchAsksNearest(ws, steps, since, own, key, g, x);
    } else {
      var t, n := FoundIsStored(ws, since, own, key, x);
      OnlyValueIsStored(ws, steps, key, value, t, n);
    }
  }

  /** A finished search has asked the nearest node and got a list of nodes from it. */
  lemma SearchAsksNearest(ws: seq<World>, steps: seq<Step>, since: nat, own: Table, key: Key, g: Key, x: Execution)
    requires ServesSearch(ws, steps, own.owner, key) && HealthyWorld(ws[0])
    requires OwnTableAt(ws, since, own) && IsNearest(ws[0].tables.Keys, own.owner, key, g)
    requires Executes(own, key, true, x) && TruthfulExecution(ws, since, key, true, x) && x.ending.Done?
    ensures exists t :: since <= t < |ws| && g in ws[t].stores && key !in ws[t].stores[g]
  {
    SearchEndsAtNearest(ws, steps, since, own, key, true, g, x);
    var m, i := VisitedWasQueried(own.owner, key, x.states, x.logs, |x.logs|, g);
    hide LiveHistory, ServesSearch, HealthyWorld, IsNearest, OwnTableAt, Executes, TruthfulExecution;
    QueriedLacked(ws, since, own, key, x, m, i);
  }

  /** A node that was asked in a round, which brought no value, did not hold one. */
  lemma QueriedLacked(ws: seq<World>, since: nat, own: Table, key: Key, x: Execution, m: nat, i: nat)
    requires Executes(own, key, true, x) && TruthfulExecution(ws, since, key, true, x)
    requires m < |x.logs| && i < |Queried(x.states[m])|
    ensures var id := Queried(x.states[m])[i].id;
            exists t :: since <= t < |ws| && id in ws[t].stores && key !in ws[t].stores[id]
  {
    var q, log := Queried(x.states[m]), x.logs[m];
    assert GoodRound(own.owner, key, x.states[m], log);
    assert TruthfulAnswers(ws, since, key, true, q, log.answers);
    assert TruthfulSince(ws, since, key, true, q[i], log.answers[i]);
    var t, u :| since <= t <= u < |ws| && Truthful(ws[t], ws[u], key, true, q[i], log.answers[i]);
    assert !log.answers[i].Found?;
  }

  /** g is the live node closest to the key, searchers included. */
  ghost predicate IsClosest(net: set<Key>, key: Key, g: Key) {
    g in net && forall x :: x in net ==> GetKeyDistance(g, key) <= GetKeyDistance(x, key)
  }

  lemma ClosestServes(ws: seq<World>, steps: seq<Step>, since: nat, own: Table, key: Key, g: Key)
    requires LiveHistory(ws, steps) && HealthyWorld(ws[0]) && OwnTableAt(ws, since, own)
    requires IsClosest(ws[0].tables.Keys, key, g) && g != own.owner
    ensures ServesSearch(ws, steps, own.owner, key) && IsNearest(ws[0].tables.Keys, own.owner, key, g)
  {
    OwnTableIsHealthy(ws, steps, since, own);
    assert GetKeyDistance(g, key) <= GetKeyDistance(own.owner, key);
  }

  /** A's STOREs reach g, which keeps the value. */
  lemma StoreReachesClosest(ws: seq<World>, steps: seq<Step>, since: nat, key: Key, value: ValueMeta, g: Key,
                            own: Table, x: Execution, t: nat)
    requires LiveHistory(ws, steps) && HealthyWorld(ws[0]) && OnlyValue(ws, steps, key, value)
    requires IsClosest(ws[0].tables.Keys, key, g) && g != own.owner && OwnTableAt(ws, 0, own)
    requires Executes(own, key, false, x) && TruthfulExecution(ws, 0, key, false, x) && x.ending.Done?
    requires StoreDelivered(steps, since, StoreTargets(x.states[|x.logs|].closest), key, value) && since <= t < |ws|
    ensures g in ws[t].stores && key in ws[t].stores[g]
  {
    ClosestServes(ws, steps, 0, own, key, g);
    SearchEndsAtNearest(ws, steps, 0, own, key, false, g, x);
    hide TruthfulExecution, Executes, HealthyWorld, IsClosest, OwnTableAt, ServesSearch, CanStep;
    var n := x.states[|x.logs|].closest[0];
    HeadIsTarget(x.states[|x.logs|].closest);
    var m :| 0 <= m < since && steps[m] == Put(n.id, key, value);
    StoredStays(ws, steps, key, value, g, m, t);
  }

  /** A stores value for key, whose closest node g is not A. Once the STOREs are delivered, FindValue at any node B
      returns value: from B's own storage, or from the search, which cannot end with "not found". */
  lemma StoreThenFind(ws: seq<World>, steps: seq<Step>, since: nat, key: Key, value: ValueMeta, g: Key,
                      ownA: Table, xA: Execution, ownB: Table, xB: Execution, now: nat)
    requires LiveHistory(ws, steps) && HealthyWorld(ws[0]) && StoredWereCalled(ws[0])
             && OnlyValue(ws, steps, key, value)
    requires IsClosest(ws[0].tables.Keys, key, g) && g != ownA.owner
    requires OwnTableAt(ws, 0, ownA)
    requires Executes(ownA, key, false, xA) && TruthfulExecution(ws, 0, key, false, xA) && xA.ending.Done?
    requires StoreDelivered(steps, since, StoreTargets(xA.states[|xA.logs|].closest), key, value)
    requires OwnTableAt(ws, since, ownB) && since <= now < |ws|
    ensures ownB.owner in ws[now].stores
    ensures key in ws[now].stores[ownB.owner] ==> ws[now].stores[ownB.owner][key] == value
    ensures key !in ws[now].stores[ownB.owner]
            && Executes(ownB, key, true, xB) && TruthfulExecution(ws, since, key, true, xB) && !xB.ending.Cancelled?
            ==> xB.ending.Returned? && xB.ending.value == value
  {
    HistoryIsHealthy(ws, steps, now);
    OwnTableIsHealthy(ws, steps, since, ownB);
    assert ownB.owner in ws[now].stores;
    forall t | since <= t < |ws|
      ensures g in ws[t].stores && key in ws[t].stores[g]
    {
      StoreReachesClosest(ws, steps, since, key, value, g, ownA, xA, t);
    }
    if key in ws[now].stores[ownB.owner] {
      OnlyValueIsStored(ws, steps, key, value, now, ownB.owner);
    } else if Executes(ownB, key, true, xB) && TruthfulExecution(ws, since, key, true, xB) && !xB.ending.Cancelled? {
      ClosestServes(ws, steps, since, ownB, key, g);
      hide LiveHistory, HealthyWorld, IsClosest, TruthfulExecution, Executes, OnlyValue, StoreDelivered;
      SearchReturnsStored(ws, steps, since, ownB, key, value, g, xB);
    }
  }

  lemma HasPeers(net: set<Key>, own: Table)
    requires Healthy(net, own) && net != {own.owner}
    ensures Entries(own) != []
  {
    var x :| x in net && x != own.owner;
    var b := own.buckets[BucketIndex(own.owner, x)];
    assert b[0] in b;
    assert BucketInv(own.owner, BucketIndex(own.owner, x), b);
    EntryBucket(own, b[0]);
  }

  /** A node of a network of two or more always has someone to ask. */
  lemma SeedsExist(net: set<Key>, own: Table, target: Key, r: seq<NetworkNode>)
    requires Healthy(net, own) && net != {own.owner} && IsFindClosest(Entries(own), target, K, r)
    ensures WithoutId(r, own.owner) != []
  {
    HasPeers(net, own);
    Closest.FindClosestIsBest(Entries(own), target, K, r);
    assert r[0] in r;
    Closest.FindClosestMembers(Entries(own), target, K, r, r[0]);
    EntriesAreLive(net, own, r[0]);
  }
}
