/** iterativeSearch of dht/logic.go as rounds over values: what a round may do, whatever answers arrive in whatever
    order. */
module Search {
  import opened Keys
  import opened Tables

  const ALPHA: nat := 3

  datatype ValueMeta =
    ValueMeta(inline: bool, data: Bytes, blobRef: string, blobNode: Key, size: int, mimeType: string)

  /** What one query brings back: an error, a list of nodes (empty for "not found"), or the value itself. */
  datatype Answer = Failed | Nodes(res: seq<NetworkNode>) | Found(value: ValueMeta)

  datatype SearchState = SearchState(closest: seq<NetworkNode>, visited: set<Key>)

  /** One round: an answer per queried node; for each node an answer names, whether the check of visited came before
      a mark this round was still to set; and the order in which the sort left the merged list. */
  datatype RoundLog = RoundLog(answers: seq<Answer>, late: seq<seq<bool>>, merged: seq<NetworkNode>)

  function Ids(nodes: seq<NetworkNode>): set<Key> {
    set n | n in nodes :: n.id
  }

  /** The first limit entries whose ID is not visited; equal IDs may be picked together. */
  function Unvisited(closest: seq<NetworkNode>, visited: set<Key>, limit: nat): (q: seq<NetworkNode>)
    ensures |q| <= limit
    ensures forall n :: n in q ==> n in closest && n.id !in visited
    ensures q == [] <==> limit == 0 || forall n :: n in closest ==> n.id in visited
    ensures limit > 0 && closest != [] && closest[0].id !in visited ==> q != [] && q[0] == closest[0]
  {
    if closest == [] || limit == 0 then []
    else if closest[0].id !in visited then [closest[0]] + Unvisited(closest[1..], visited, limit - 1)
    else Unvisited(closest[1..], visited, limit)
  }

  function Queried(s: SearchState): seq<NetworkNode> {
    Unvisited(s.closest, s.visited, ALPHA)
  }

  predicate Accepts(self: Key, known: set<Key>, marking: set<Key>, r: NetworkNode, late: bool) {
    r.id != self && r.id !in known && (r.id in marking ==> late)
  }

  /** The nodes of one answer that are kept: not the searcher, not marked visited when looked up. IDs in known are
      marked for certain; those in marking are being marked meanwhile. */
  function Accepted(self: Key, known: set<Key>, marking: set<Key>, res: seq<NetworkNode>,
                    late: seq<bool>): seq<NetworkNode>
    requires |late| == |res|
  {
    if res == [] then []
    else
      var n := |res| - 1;
      Accepted(self, known, marking, res[..n], late[..n])
      + if Accepts(self, known, marking, res[n], late[n]) then [res[n]] else []
  }

  /** Query i starts once the IDs of queries 0 to i are marked. */
  function AcceptedFrom(self: Key, visited: set<Key>, q: seq<NetworkNode>, i: nat, answer: Answer,
                        late: seq<bool>): seq<NetworkNode>
    requires i < |q|
  {
    if answer.Nodes? && |late| == |answer.res|
    then Accepted(self, visited + Ids(q[..i + 1]), Ids(q[i + 1..]), answer.res, late)
    else []
  }

  function Gathered(self: Key, visited: set<Key>, q: seq<NetworkNode>, log: RoundLog, count: nat): seq<NetworkNode>
    requires count <= |q| == |log.answers| == |log.late|
    decreases count
  {
    if count == 0 then []
    else Gathered(self, visited, q, log, count - 1)
         + AcceptedFrom(self, visited, q, count - 1, log.answers[count - 1], log.late[count - 1])
  }

  ghost predicate GoodRound(self: Key, target: Key, s: SearchState, log: RoundLog) {
    var q := Queried(s);
    q != [] && |log.answers| == |q| && |log.late| == |q|
    && (forall i :: 0 <= i < |q| ==>
          !log.answers[i].Found? && (log.answers[i].Nodes? ==> |log.late[i]| == |log.answers[i].res|))
    && SortOf(s.closest + Gathered(self, s.visited, q, log, |q|), target, log.merged)
  }

  function Advance(s: SearchState, log: RoundLog): SearchState {
    SearchState(log.merged[..Min(K, |log.merged|)], s.visited + Ids(Queried(s)))
  }

  /** states[n] is the state at the head of round n. */
  ghost predicate Rounds(self: Key, target: Key, states: seq<SearchState>, logs: seq<RoundLog>) {
    |states| == |logs| + 1
    && forall n :: 0 <= n < |logs| ==>
         GoodRound(self, target, states[n], logs[n]) && states[n + 1] == Advance(states[n], logs[n])
  }

  function WithoutId(nodes: seq<NetworkNode>, id: Key): (r: seq<NetworkNode>)
    ensures forall n :: n in r <==> n in nodes && n.id != id
  {
    if nodes == [] then []
    else WithoutId(nodes[..|nodes| - 1], id) + if nodes[|nodes| - 1].id != id then [nodes[|nodes| - 1]] else []
  }

  /** The searcher's own nearest entries, itself left out, nothing visited yet. */
  ghost predicate Seeded(own: Table, target: Key, s: SearchState) {
    s.visited == {} && s.closest != []
    && exists r :: IsFindClosest(Entries(own), target, K, r) && s.closest == WithoutId(r, own.owner)
  }

  // ---- What every search keeps ----

  ghost predicate SearchInv(self: Key, target: Key, s: SearchState) {
    Ascending(s.closest, target) && 0 < |s.closest| <= K && forall n :: n in s.closest ==> n.id != self
  }

  /** id is in the list, or the list is full of entries no farther than id. */
  ghost predicate Covered(target: Key, s: SearchState, id: Key) {
    id in Ids(s.closest)
    || (|s.closest| == K && GetKeyDistance(s.closest[K - 1].id, target) <= GetKeyDistance(id, target))
  }

  ghost function Named(self: Key, log: RoundLog): set<Key> {
    set i, r | 0 <= i < |log.answers| && log.answers[i].Nodes? && r in log.answers[i].res && r.id != self :: r.id
  }

  /** The IDs the searcher has been told before round n. */
  ghost function Learned(self: Key, states: seq<SearchState>, logs: seq<RoundLog>, n: nat): set<Key>
    requires n <= |logs| && states != []
    decreases n
  {
    if n == 0 then Ids(states[0].closest) else Learned(self, states, logs, n - 1) + Named(self, logs[n - 1])
  }

  lemma {:induction false} WithoutIdAscending(nodes: seq<NetworkNode>, id: Key, target: Key)
    requires Ascending(nodes, target)
    ensures Ascending(WithoutId(nodes, id), target) && |WithoutId(nodes, id)| <= |nodes|
  {
    if nodes != [] {
      var n := |nodes| - 1;
      var front, all := WithoutId(nodes[..n], id), WithoutId(nodes, id);
      WithoutIdAscending(nodes[..n], id, target);
      forall i, j | 0 <= i < j < |all|
        ensures GetKeyDistance(all[i].id, target) <= GetKeyDistance(all[j].id, target)
      {
        if j == |front| {
          assert front[i] in nodes[..n];
        }
      }
    }
  }
}
