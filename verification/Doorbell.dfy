/** Signalling over the DHT (transport/webrtc/signaling.go): offers, doorbells and answers are values of a store whose
    reads may return any value ever written under a key, and every peer runs a poll loop with its own goroutines. */
module Doorbell {
  import opened Keys
  import opened Options

  datatype SignalPayload = SignalPayload(callerID: Key, sdp: Bytes)

  datatype Entry = Entry(payload: SignalPayload, timestamp: int)

  /** The hash behind the keys and the encoding of entries, neither of which is looked into. */
  datatype Codec = Codec(hash: Bytes -> Key, encode: Entry -> Bytes, decode: Bytes -> Option<Entry>)

  // "rtcof:", "rtcan:" and "rtcbell:"
  const OFFER_TAG: Bytes := [114, 116, 99, 111, 102, 58]
  const ANSWER_TAG: Bytes := [114, 116, 99, 97, 110, 58]
  const BELL_TAG: Bytes := [114, 116, 99, 98, 101, 108, 108, 58]

  function OfferPreimage(caller: Key, callee: Key): Bytes {
    OFFER_TAG + caller.bytes + callee.bytes
  }

  function AnswerPreimage(caller: Key, callee: Key): Bytes {
    ANSWER_TAG + caller.bytes + callee.bytes
  }

  function BellPreimage(callee: Key): Bytes {
    BELL_TAG + callee.bytes
  }

  function OfferKey(c: Codec, caller: Key, callee: Key): Key {
    c.hash(OfferPreimage(caller, callee))
  }

  function AnswerKey(c: Codec, caller: Key, callee: Key): Key {
    c.hash(AnswerPreimage(caller, callee))
  }

  function BellKey(c: Codec, callee: Key): Key {
    c.hash(BellPreimage(callee))
  }

  ghost predicate Used(peers: set<Key>, preimage: Bytes) {
    exists a, b :: a in peers && b in peers
      && (preimage == OfferPreimage(a, b) || preimage == AnswerPreimage(a, b) || preimage == BellPreimage(b))
  }

  /** No two preimages that these peers use collide, and decoding undoes encoding. */
  ghost predicate GoodCodec(c: Codec, peers: set<Key>) {
    (forall p, q :: Used(peers, p) && Used(peers, q) && c.hash(p) == c.hash(q) ==> p == q)
    && forall e :: c.decode(c.encode(e)) == Some(e)
  }

  lemma SplitPair(tag: Bytes, a: Key, b: Key, a': Key, b': Key)
    requires tag + a.bytes + b.bytes == tag + a'.bytes + b'.bytes
    ensures a == a' && b == b'
  {
    var n := |tag|;
    var p, q := tag + a.bytes + b.bytes, tag + a'.bytes + b'.bytes;
    assert p[n..n + KEY_BYTES] == a.bytes && q[n..n + KEY_BYTES] == a'.bytes;
    assert p[n + KEY_BYTES..] == b.bytes && q[n + KEY_BYTES..] == b'.bytes;
  }

  /** Preimages of different kinds, or of different peers, differ. */
  lemma PreimagesDiffer(a: Key, b: Key, a': Key, b': Key)
    ensures OfferPreimage(a, b) == OfferPreimage(a', b') ==> a == a' && b == b'
    ensures AnswerPreimage(a, b) == AnswerPreimage(a', b') ==> a == a' && b == b'
    ensures BellPreimage(b) == BellPreimage(b') ==> b == b'
    ensures OfferPreimage(a, b) != AnswerPreimage(a', b')
    ensures BellPreimage(b) != OfferPreimage(a', b') && BellPreimage(b) != AnswerPreimage(a', b')
  {
    if OfferPreimage(a, b) == OfferPreimage(a', b') {
      SplitPair(OFFER_TAG, a, b, a', b');
    }
    if AnswerPreimage(a, b) == AnswerPreimage(a', b') {
      SplitPair(ANSWER_TAG, a, b, a', b');
    }
    if BellPreimage(b) == BellPreimage(b') {
      assert BellPreimage(b)[|BELL_TAG|..] == b.bytes && BellPreimage(b')[|BELL_TAG|..] == b'.bytes;
    }
    assert OfferPreimage(a, b)[3] == 111 && AnswerPreimage(a', b')[3] == 97;
    assert |BellPreimage(b)| == 28 && |OfferPreimage(a', b')| == |AnswerPreimage(a', b')| == 46;
  }

  /** The layout: the tag, then the caller's twenty bytes, then the callee's; a doorbell has the callee's only. */
  lemma PreimageLayout(caller: Key, callee: Key)
    ensures |OfferPreimage(caller, callee)| == |AnswerPreimage(caller, callee)| == 6 + 2 * KEY_BYTES
    ensures OfferPreimage(caller, callee)[6..26] == AnswerPreimage(caller, callee)[6..26] == caller.bytes
    ensures OfferPreimage(caller, callee)[26..] == AnswerPreimage(caller, callee)[26..] == callee.bytes
    ensures BellPreimage(callee)[8..] == callee.bytes
  {
  }

  /** With a good codec the keys of the peers differ as their preimages do. */
  lemma KeysDiffer(c: Codec, peers: set<Key>, a: Key, b: Key, a': Key, b': Key)
    requires GoodCodec(c, peers) && a in peers && b in peers && a' in peers && b' in peers
    ensures OfferKey(c, a, b) == OfferKey(c, a', b') ==> a == a' && b == b'
    ensures AnswerKey(c, a, b) == AnswerKey(c, a', b') ==> a == a' && b == b'
    ensures BellKey(c, b) == BellKey(c, b') ==> b == b'
    ensures OfferKey(c, a, b) != AnswerKey(c, a', b')
    ensures BellKey(c, b) != OfferKey(c, a', b') && BellKey(c, b) != AnswerKey(c, a', b')
  {
    PreimagesDiffer(a, b, a', b');
    assert Used(peers, OfferPreimage(a, b)) && Used(peers, OfferPreimage(a', b'));
    assert Used(peers, AnswerPreimage(a, b)) && Used(peers, AnswerPreimage(a', b'));
    assert Used(peers, BellPreimage(b)) && Used(peers, BellPreimage(b'));
  }

  // ---- The state of the protocol ----

  datatype Write = Write(key: Key, data: Bytes)

  /** A SendOffer call that has stored its entry. */
  datatype Offer = Offer(caller: Key, callee: Key, entry: Entry)

  /** A handler run at callee that answered. */
  datatype Run = Run(callee: Key, caller: Key, payload: SignalPayload, answer: Bytes)

  /** The poll loop: waiting for a tick; the doorbell was read; the caller is claimed and its offer is being read. */
  datatype Loop = Idle | Rung(caller: Key) | Reading(caller: Key)

  /** A spawned goroutine: in the handler; storing the answer; clearing the doorbell. */
  datatype Phase = Handling | Answering(answer: Bytes) | Clearing

  datatype Task = Task(caller: Key, entry: Entry, phase: Phase)

  datatype Poller = Poller(processing: set<Key>, loop: Loop, tasks: map<nat, Task>)

  datatype System = System(writes: set<Write>, offers: set<Offer>, runs: set<Run>, pollers: map<Key, Poller>)

  datatype Step =
    | StoreOffer(caller: Key, callee: Key, entry: Entry)
    | Ring(caller: Key, callee: Key)
    | ReadBell(p: Key, data: Bytes)                // a tick reads a doorbell value of twenty bytes
    | Claim(p: Key)                                // the locked check of processing
    | GiveUp(p: Key)                               // no offer, not inline, not decodable, or too old
    | ReadOffer(p: Key, data: Bytes, tid: nat)     // a fresh entry: the goroutine is spawned
    | HandlerFails(p: Key, tid: nat)
    | HandlerAnswers(p: Key, tid: nat, answer: Bytes)
    | StoreAnswer(p: Key, tid: nat, stored: bool)  // the result of StoreValue is ignored
    | ClearBell(p: Key, tid: nat, stored: bool)

  predicate InTask(s: System, p: Key, tid: nat) {
    p in s.pollers && tid in s.pollers[p].tasks
  }

  predicate CanStep(c: Codec, s: System, e: Step) {
    match e
    case StoreOffer(caller, callee, entry) =>
      caller in s.pollers && callee in s.pollers && entry.payload.callerID == caller
    case Ring(caller, callee) => caller in s.pollers && callee in s.pollers
    case ReadBell(p, data) =>
      p in s.pollers && s.pollers[p].loop == Idle && Write(BellKey(c, p), data) in s.writes && |data| == KEY_BYTES
    case Claim(p) => p in s.pollers && s.pollers[p].loop.Rung?
    case GiveUp(p) => p in s.pollers && s.pollers[p].loop.Reading?
    case ReadOffer(p, data, tid) =>
      p in s.pollers && s.pollers[p].loop.Reading? && tid !in s.pollers[p].tasks
      && Write(OfferKey(c, s.pollers[p].loop.caller, p), data) in s.writes && c.decode(data).Some?
    case HandlerFails(p, tid) => InTask(s, p, tid) && s.pollers[p].tasks[tid].phase == Handling
    case HandlerAnswers(p, tid, _) => InTask(s, p, tid) && s.pollers[p].tasks[tid].phase == Handling
    case StoreAnswer(p, tid, _) => InTask(s, p, tid) && s.pollers[p].tasks[tid].phase.Answering?
    case ClearBell(p, tid, _) => InTask(s, p, tid) && s.pollers[p].tasks[tid].phase == Clearing
  }

  function SetPoller(s: System, p: Key, poller: Poller): System {
    s.(pollers := s.pollers[p := poller])
  }

  /** The goroutine ends and its deferred function releases the caller. */
  function EndTask(poller: Poller, tid: nat): Poller
    requires tid in poller.tasks
  {
    Poller(poller.processing - {poller.tasks[tid].caller}, poller.loop, poller.tasks - {tid})
  }

  function SetPhase(poller: Poller, tid: nat, phase: Phase): Poller
    requires tid in poller.tasks
  {
    poller.(tasks := poller.tasks[tid := poller.tasks[tid].(phase := phase)])
  }

  function PollerAfter(c: Codec, poller: Poller, e: Step): Poller
    requires e.Claim? ==> poller.loop.Rung?
    requires e.GiveUp? ==> poller.loop.Reading?
    requires e.ReadBell? ==> |e.data| == KEY_BYTES
    requires e.ReadOffer? ==> poller.loop.Reading? && c.decode(e.data).Some?
    requires e.HandlerFails? || e.HandlerAnswers? || e.StoreAnswer? || e.ClearBell? ==> e.tid in poller.tasks
  {
    match e
    case StoreOffer(_, _, _) => poller
    case Ring(_, _) => poller
    case ReadBell(_, data) => poller.(loop := Rung(Key(data)))
    case Claim(_) =>
      if poller.loop.caller in poller.processing then poller.(loop := Idle)
      else poller.(processing := poller.processing + {poller.loop.caller}, loop := Reading(poller.loop.caller))
    case GiveUp(_) => poller.(processing := poller.processing - {poller.loop.caller}, loop := Idle)
    case ReadOffer(_, data, tid) =>
      poller.(loop := Idle, tasks := poller.tasks[tid := Task(poller.loop.caller, c.decode(data).value, Handling)])
    case HandlerFails(_, tid) => EndTask(poller, tid)
    case HandlerAnswers(_, tid, answer) => SetPhase(poller, tid, Answering(answer))
    case StoreAnswer(_, tid, _) => SetPhase(poller, tid, Clearing)
    case ClearBell(_, tid, _) => EndTask(poller, tid)
  }

  function WritesOf(c: Codec, s: System, e: Step): set<Write>
    requires CanStep(c, s, e)
  {
    match e
    case StoreOffer(caller, callee, entry) => {Write(OfferKey(c, caller, callee), c.encode(entry))}
    case Ring(caller, callee) => {Write(BellKey(c, callee), caller.bytes)}
    case StoreAnswer(p, tid, stored) =>
      var task := s.pollers[p].tasks[tid];
      if stored then {Write(AnswerKey(c, task.caller, p), task.phase.answer)} else {}
    case ClearBell(p, _, stored) => if stored then {Write(BellKey(c, p), [])} else {}
    case ReadBell(_, _) => {}
    case Claim(_) => {}
    case GiveUp(_) => {}
    case ReadOffer(_, _, _) => {}
    case HandlerFails(_, _) => {}
    case HandlerAnswers(_, _, _) => {}
  }

  function Stepped(c: Codec, s: System, e: Step): System
    requires CanStep(c, s, e)
  {
    var s' := s.(writes := s.writes + WritesOf(c, s, e));
    match e
    case StoreOffer(caller, callee, entry) => s'.(offers := s.offers + {Offer(caller, callee, entry)})
    case Ring(_, _) => s'
    case HandlerAnswers(p, tid, answer) =>
      var task := s.pollers[p].tasks[tid];
      var r := Run(p, task.caller, task.entry.payload, answer);
      SetPoller(s'.(runs := s.runs + {r}), p, PollerAfter(c, s.pollers[p], e))
    case ReadBell(p, _) => SetPoller(s', p, PollerAfter(c, s.pollers[p], e))
    case Claim(p) => SetPoller(s', p, PollerAfter(c, s.pollers[p], e))
    case GiveUp(p) => SetPoller(s', p, PollerAfter(c, s.pollers[p], e))
    case ReadOffer(p, _, _) => SetPoller(s', p, PollerAfter(c, s.pollers[p], e))
    case HandlerFails(p, _) => SetPoller(s', p, PollerAfter(c, s.pollers[p], e))
    case StoreAnswer(p, _, _) => SetPoller(s', p, PollerAfter(c, s.pollers[p], e))
    case ClearBell(p, _, _) => SetPoller(s', p, PollerAfter(c, s.pollers[p], e))
  }

  ghost predicate Steps(c: Codec, ss: seq<System>, es: seq<Step>) {
    |ss| == |es| + 1
    && forall n :: 0 <= n < |es| ==> CanStep(c, ss[n], es[n]) && ss[n + 1] == Stepped(c, ss[n], es[n])
  }

  function Start(peers: set<Key>): System {
    System({}, {}, {}, map p | p in peers :: Poller({}, Idle, map[]))
  }

  // ---- One handler run at a time for each caller ----

  /** The callers on which the poll loop or a goroutine holds a claim. */
  ghost predicate IsClaimed(poller: Poller, caller: Key) {
    poller.loop == Reading(caller) || exists tid :: tid in poller.tasks && poller.tasks[tid].caller == caller
  }

  /** processing is the set of claimed callers, and each of them is claimed once. */
  ghost predicate ClaimsMatch(poller: Poller) {
    (forall x :: x in poller.processing <==> IsClaimed(poller, x))
    && (forall t1, t2 :: t1 in poller.tasks && t2 in poller.tasks && t1 != t2
          ==> poller.tasks[t1].caller != poller.tasks[t2].caller)
    && (poller.loop.Reading? ==> forall tid :: tid in poller.tasks ==> poller.tasks[tid].caller != poller.loop.caller)
  }

  lemma EndTaskIsExclusive(poller: Poller, tid: nat)
    requires ClaimsMatch(poller) && tid in poller.tasks
    ensures ClaimsMatch(EndTask(poller, tid))
  {
    var after := EndTask(poller, tid);
    forall x
      ensures x in after.processing <==> IsClaimed(after, x)
    {
      if IsClaimed(poller, x) && x != poller.tasks[tid].caller && poller.loop != Reading(x) {
        var t :| t in poller.tasks && poller.tasks[t].caller == x;
        assert t in after.tasks && after.tasks[t].caller == x;
      }
      if IsClaimed(after, x) && after.loop != Reading(x) {
        var t :| t in after.tasks && after.tasks[t].caller == x;
        assert t in poller.tasks && poller.tasks[t].caller == x;
      }
    }
  }

  lemma SetPhaseIsExclusive(poller: Poller, tid: nat, phase: Phase)
    requires ClaimsMatch(poller) && tid in poller.tasks
    ensures ClaimsMatch(SetPhase(poller, tid, phase))
  {
    var after := SetPhase(poller, tid, phase);
    assert after.tasks.Keys == poller.tasks.Keys;
    assert forall t :: t in after.tasks ==> after.tasks[t].caller == poller.tasks[t].caller;
    forall x
      ensures x in after.processing <==> IsClaimed(after, x)
    {
      if IsClaimed(poller, x) && poller.loop != Reading(x) {
        var t :| t in poller.tasks && poller.tasks[t].caller == x;
        assert t in after.tasks && after.tasks[t].caller == x;
      }
    }
  }

  lemma SpawnIsExclusive(poller: Poller, tid: nat, entry: Entry)
    requires ClaimsMatch(poller) && poller.loop.Reading? && tid !in poller.tasks
    ensures ClaimsMatch(poller.(loop := Idle, tasks := poller.tasks[tid := Task(poller.loop.caller, entry, Handling)]))
  {
    var after := poller.(loop := Idle, tasks := poller.tasks[tid := Task(poller.loop.caller, entry, Handling)]);
    assert after.tasks[tid].caller == poller.loop.caller;
    assert forall t :: t in poller.tasks ==> t != tid && t in after.tasks && after.tasks[t] == poller.tasks[t];
    forall x
      ensures x in after.processing <==> IsClaimed(after, x)
    {
      if IsClaimed(poller, x) && poller.loop != Reading(x) {
        var t :| t in poller.tasks && poller.tasks[t].caller == x;
        assert t in after.tasks;
      }
    }
  }

  lemma PollerStaysExclusive(c: Codec, s: System, e: Step, p: Key)
    requires CanStep(c, s, e) && p in s.pollers && ClaimsMatch(s.pollers[p])
    ensures p in Stepped(c, s, e).pollers && ClaimsMatch(Stepped(c, s, e).pollers[p])
  {
    var poller := s.pollers[p];
    match e
    case HandlerFails(_, tid) => if e.p == p { EndTaskIsExclusive(poller, tid); }
    case ClearBell(_, tid, _) => if e.p == p { EndTaskIsExclusive(poller, tid); }
    case HandlerAnswers(_, tid, answer) => if e.p == p { SetPhaseIsExclusive(poller, tid, Answering(answer)); }
    case StoreAnswer(_, tid, _) => if e.p == p { SetPhaseIsExclusive(poller, tid, Clearing); }
    case ReadOffer(_, data, tid) => if e.p == p { SpawnIsExclusive(poller, tid, c.decode(data).value); }
    case Claim(_) =>
    case GiveUp(_) =>
    case ReadBell(_, _) =>
    case StoreOffer(_, _, _) =>
    case Ring(_, _) =>
  }

  /** In every interleaving processing holds a caller exactly while one claim on it is outstanding: handler runs for
      one caller never overlap, and no path forgets to release. */
  lemma {:induction false} ClaimsAreExclusive(c: Codec, peers: set<Key>, ss: seq<System>, es: seq<Step>, n: nat, p: Key)
    requires Steps(c, ss, es) && ss[0] == Start(peers) && n <= |es| && p in peers
    ensures p in ss[n].pollers && ClaimsMatch(ss[n].pollers[p])
    decreases n
  {
    if n > 0 {
      ClaimsAreExclusive(c, peers, ss, es, n - 1, p);
      PollerStaysExclusive(c, ss[n - 1], es[n - 1], p);
    }
  }

  /** When the loop is idle and no goroutine is left, every caller has been released. */
  lemma AllReleased(c: Codec, peers: set<Key>, ss: seq<System>, es: seq<Step>, n: nat, p: Key)
    requires Steps(c, ss, es) && ss[0] == Start(peers) && n <= |es| && p in peers
    requires p in ss[n].pollers && ss[n].pollers[p].loop == Idle && ss[n].pollers[p].tasks == map[]
    ensures ss[n].pollers[p].processing == {}
  {
    ClaimsAreExclusive(c, peers, ss, es, n, p);
    assert forall x :: !IsClaimed(ss[n].pollers[p], x);
  }

  // ---- Where answers come from ----

  ghost predicate IsOfferWrite(c: Codec, s: System, w: Write) {
    exists o :: o in s.offers && w == Write(OfferKey(c, o.caller, o.callee), c.encode(o.entry))
  }

  ghost predicate IsAnswerWrite(c: Codec, s: System, w: Write) {
    exists r :: r in s.runs && w == Write(AnswerKey(c, r.caller, r.callee), r.answer)
  }

  ghost predicate IsBellWrite(c: Codec, peers: set<Key>, w: Write) {
    exists callee :: callee in peers && w.key == BellKey(c, callee)
      && (w.data == [] || exists caller :: caller in peers && w.data == caller.bytes)
  }

  /** A run answered a payload which its caller had stored for its callee. */
  ghost predicate RunHasOffer(s: System, r: Run) {
    exists o :: o in s.offers && o.caller == r.caller && o.callee == r.callee && o.entry.payload == r.payload
  }

  ghost predicate TaskInv(s: System, p: Key, task: Task) {
    Offer(task.caller, p, task.entry) in s.offers
    && (task.phase.Answering? ==> Run(p, task.caller, task.entry.payload, task.phase.answer) in s.runs)
  }

  ghost predicate PollerInv(s: System, peers: set<Key>, p: Key, poller: Poller) {
    (!poller.loop.Idle? ==> poller.loop.caller in peers)
    && forall tid :: tid in poller.tasks ==> TaskInv(s, p, poller.tasks[tid])
  }

  ghost predicate SystemInv(c: Codec, peers: set<Key>, s: System) {
    s.pollers.Keys == peers
    && (forall w :: w in s.writes ==> IsOfferWrite(c, s, w) || IsAnswerWrite(c, s, w) || IsBellWrite(c, peers, w))
    && (forall o :: o in s.offers ==> o.caller in peers && o.callee in peers && o.entry.payload.callerID == o.caller)
    && (forall r :: r in s.runs ==> RunHasOffer(s, r))
    && (forall p :: p in peers ==> PollerInv(s, peers, p, s.pollers[p]))
  }

  /** What is read from a key of one kind was written for that kind. */
  lemma ReadsBell(c: Codec, peers: set<Key>, s: System, p: Key, data: Bytes)
    requires GoodCodec(c, peers) && SystemInv(c, peers, s) && p in peers && Write(BellKey(c, p), data) in s.writes
    requires |data| == KEY_BYTES
    ensures Key(data) in peers
  {
    var w := Write(BellKey(c, p), data);
    if IsOfferWrite(c, s, w) {
      var o :| o in s.offers && w == Write(OfferKey(c, o.caller, o.callee), c.encode(o.entry));
      KeysDiffer(c, peers, p, p, o.caller, o.callee);
    } else if IsAnswerWrite(c, s, w) {
      var r :| r in s.runs && w == Write(AnswerKey(c, r.caller, r.callee), r.answer);
      assert RunHasOffer(s, r);
      KeysDiffer(c, peers, p, p, r.caller, r.callee);
    } else {
      var caller :| caller in peers && w.data == caller.bytes;
      assert Key(data) == caller;
    }
  }

  lemma ReadsOffer(c: Codec, peers: set<Key>, s: System, caller: Key, callee: Key, data: Bytes) returns (entry: Entry)
    requires GoodCodec(c, peers) && SystemInv(c, peers, s) && caller in peers && callee in peers
    requires Write(OfferKey(c, caller, callee), data) in s.writes
    ensures c.decode(data) == Some(entry) && Offer(caller, callee, entry) in s.offers
  {
    var w := Write(OfferKey(c, caller, callee), data);
    if IsAnswerWrite(c, s, w) {
      var r :| r in s.runs && w == Write(AnswerKey(c, r.caller, r.callee), r.answer);
      assert RunHasOffer(s, r);
      KeysDiffer(c, peers, caller, callee, r.caller, r.callee);
    } else if IsBellWrite(c, peers, w) {
      var other :| other in peers && w.key == BellKey(c, other);
      KeysDiffer(c, peers, other, other, caller, callee);
    }
    var o :| o in s.offers && w == Write(OfferKey(c, o.caller, o.callee), c.encode(o.entry));
    KeysDiffer(c, peers, caller, callee, o.caller, o.callee);
    entry := o.entry;
  }

  lemma ReadsAnswer(c: Codec, peers: set<Key>, s: System, caller: Key, callee: Key, data: Bytes) returns (r: Run)
    requires GoodCodec(c, peers) && SystemInv(c, peers, s) && caller in peers && callee in peers
    requires Write(AnswerKey(c, caller, callee), data) in s.writes
    ensures r in s.runs && r.caller == caller && r.callee == callee && r.answer == data
  {
    var w := Write(AnswerKey(c, caller, callee), data);
    if IsOfferWrite(c, s, w) {
      var o :| o in s.offers && w == Write(OfferKey(c, o.caller, o.callee), c.encode(o.entry));
      KeysDiffer(c, peers, o.caller, o.callee, caller, callee);
    } else if IsBellWrite(c, peers, w) {
      var other :| other in peers && w.key == BellKey(c, other);
      KeysDiffer(c, peers, other, other, caller, callee);
    }
    r :| r in s.runs && w == Write(AnswerKey(c, r.caller, r.callee), r.answer);
    assert RunHasOffer(s, r);
    KeysDiffer(c, peers, caller, callee, r.caller, r.callee);
  }

  lemma StepGrows(c: Codec, s: System, e: Step)
    requires CanStep(c, s, e)
    ensures s.writes <= Stepped(c, s, e).writes && s.offers <= Stepped(c, s, e).offers
            && s.runs <= Stepped(c, s, e).runs
    ensures Stepped(c, s, e).pollers.Keys == s.pollers.Keys
    ensures Stepped(c, s, e).writes == s.writes + WritesOf(c, s, e)
  {
  }

  lemma NewWrites(c: Codec, peers: set<Key>, s: System, e: Step, w: Write)
    requires SystemInv(c, peers, s) && CanStep(c, s, e) && w in WritesOf(c, s, e)
    ensures var s' := Stepped(c, s, e); IsOfferWrite(c, s', w) || IsAnswerWrite(c, s', w) || IsBellWrite(c, peers, w)
  {
    var s' := Stepped(c, s, e);
    if e.StoreOffer? {
      var o := Offer(e.caller, e.callee, e.entry);
      assert o in s'.offers && w == Write(OfferKey(c, o.caller, o.callee), c.encode(o.entry));
    } else if e.StoreAnswer? {
      var task := s.pollers[e.p].tasks[e.tid];
      assert PollerInv(s, peers, e.p, s.pollers[e.p]);
      var r := Run(e.p, task.caller, task.entry.payload, task.phase.answer);
      assert r in s'.runs && w == Write(AnswerKey(c, r.caller, r.callee), r.answer);
    }
  }

  lemma WritesStayKnown(c: Codec, peers: set<Key>, s: System, e: Step, w: Write)
    requires SystemInv(c, peers, s) && CanStep(c, s, e) && w in Stepped(c, s, e).writes
    ensures var s' := Stepped(c, s, e); IsOfferWrite(c, s', w) || IsAnswerWrite(c, s', w) || IsBellWrite(c, peers, w)
  {
    var s' := Stepped(c, s, e);
    StepGrows(c, s, e);
    if w in WritesOf(c, s, e) {
      NewWrites(c, peers, s, e, w);
    } else if IsOfferWrite(c, s, w) {
      var o :| o in s.offers && w == Write(OfferKey(c, o.caller, o.callee), c.encode(o.entry));
      assert o in s'.offers;
    } else if IsAnswerWrite(c, s, w) {
      var r :| r in s.runs && w == Write(AnswerKey(c, r.caller, r.callee), r.answer);
      assert r in s'.runs;
    }
  }

  lemma RunsStayKnown(c: Codec, peers: set<Key>, s: System, e: Step, r: Run)
    requires SystemInv(c, peers, s) && CanStep(c, s, e) && r in Stepped(c, s, e).runs
    ensures RunHasOffer(Stepped(c, s, e), r)
  {
    var s' := Stepped(c, s, e);
    StepGrows(c, s, e);
    if r in s.runs {
      assert RunHasOffer(s, r);
      var o :| o in s.offers && o.caller == r.caller && o.callee == r.callee && o.entry.payload == r.payload;
      assert o in s'.offers;
    } else {
      var task := s.pollers[e.p].tasks[e.tid];
      assert PollerInv(s, peers, e.p, s.pollers[e.p]);
      assert Offer(task.caller, e.p, task.entry) in s'.offers;
    }
  }

  /** A goroutine was spawned just now on what was read, or it was there before and has at most moved on. */
  lemma TaskBefore(c: Codec, s: System, e: Step, p: Key, tid: nat)
    requires CanStep(c, s, e) && p in s.pollers && tid in Stepped(c, s, e).pollers[p].tasks
    ensures var task := Stepped(c, s, e).pollers[p].tasks[tid];
            if e.ReadOffer? && e.p == p && e.tid == tid
            then task == Task(s.pollers[p].loop.caller, c.decode(e.data).value, Handling)
            else
              tid in s.pollers[p].tasks
              && var was := s.pollers[p].tasks[tid];
                 task.caller == was.caller && task.entry == was.entry
                 && (task.phase.Answering? ==> task == was || e == HandlerAnswers(p, tid, task.phase.answer))
  {
  }

  lemma RunIsRecorded(c: Codec, s: System, e: Step)
    requires CanStep(c, s, e) && e.HandlerAnswers?
    ensures var task := s.pollers[e.p].tasks[e.tid];
            Run(e.p, task.caller, task.entry.payload, e.answer) in Stepped(c, s, e).runs
  {
  }

  lemma TaskStaysKnown(c: Codec, peers: set<Key>, s: System, e: Step, p: Key, tid: nat)
    requires GoodCodec(c, peers) && SystemInv(c, peers, s) && CanStep(c, s, e) && p in peers
    requires tid in Stepped(c, s, e).pollers[p].tasks
    ensures TaskInv(Stepped(c, s, e), p, Stepped(c, s, e).pollers[p].tasks[tid])
  {
    StepGrows(c, s, e);
    TaskBefore(c, s, e, p, tid);
    if e.HandlerAnswers? {
      RunIsRecorded(c, s, e);
    }
    hide Stepped;
    assert PollerInv(s, peers, p, s.pollers[p]);
    assert tid in s.pollers[p].tasks ==> TaskInv(s, p, s.pollers[p].tasks[tid]);
    if e.ReadOffer? && e.p == p && tid == e.tid {
      var entry := ReadsOffer(c, peers, s, s.pollers[p].loop.caller, p, e.data);
    }
  }

  lemma PollersStayKnown(c: Codec, peers: set<Key>, s: System, e: Step, p: Key)
    requires GoodCodec(c, peers) && SystemInv(c, peers, s) && CanStep(c, s, e) && p in peers
    ensures PollerInv(Stepped(c, s, e), peers, p, Stepped(c, s, e).pollers[p])
  {
    var s' := Stepped(c, s, e);
    assert PollerInv(s, peers, p, s.pollers[p]);
    if e.ReadBell? && e.p == p {
      ReadsBell(c, peers, s, p, e.data);
    }
    forall tid | tid in s'.pollers[p].tasks
      ensures TaskInv(s', p, s'.pollers[p].tasks[tid])
    {
      TaskStaysKnown(c, peers, s, e, p, tid);
    }
    hide GoodCodec, SystemInv, TaskInv;
  }

  lemma StepKeepsSystemInv(c: Codec, peers: set<Key>, s: System, e: Step)
    requires GoodCodec(c, peers) && SystemInv(c, peers, s) && CanStep(c, s, e)
    ensures SystemInv(c, peers, Stepped(c, s, e))
  {
    var s' := Stepped(c, s, e);
    StepGrows(c, s, e);
    forall w | w in s'.writes
      ensures IsOfferWrite(c, s', w) || IsAnswerWrite(c, s', w) || IsBellWrite(c, peers, w)
    {
      WritesStayKnown(c, peers, s, e, w);
    }
    forall r | r in s'.runs
      ensures RunHasOffer(s', r)
    {
      RunsStayKnown(c, peers, s, e, r);
    }
    forall p | p in peers
      ensures PollerInv(s', peers, p, s'.pollers[p])
    {
      PollersStayKnown(c, peers, s, e, p);
    }
  }

  lemma {:induction false} SystemInvHolds(c: Codec, peers: set<Key>, ss: seq<System>, es: seq<Step>, n: nat)
    requires GoodCodec(c, peers) && Steps(c, ss, es) && ss[0] == Start(peers) && n <= |es|
    ensures SystemInv(c, peers, ss[n])
    decreases n
  {
    if n > 0 {
      SystemInvHolds(c, peers, ss, es, n - 1);
      StepKeepsSystemInv(c, peers, ss[n - 1], es[n - 1]);
    }
  }

  /** Any answer SendOffer returns to caller for callee is what callee's handler answered to a payload that this
      caller had stored for this callee, for any number of peers and any interleaving. */
  lemma AnswersComeFromHandler(c: Codec, peers: set<Key>, ss: seq<System>, es: seq<Step>, n: nat,
                               caller: Key, callee: Key, data: Bytes) returns (r: Run, o: Offer)
    requires GoodCodec(c, peers) && Steps(c, ss, es) && ss[0] == Start(peers) && n <= |es|
    requires caller in peers && callee in peers && Write(AnswerKey(c, caller, callee), data) in ss[n].writes
    ensures r in ss[n].runs && r.caller == caller && r.callee == callee && r.answer == data
    ensures o in ss[n].offers && o.caller == caller && o.callee == callee && o.entry.payload == r.payload
    ensures r.payload.callerID == caller
  {
    SystemInvHolds(c, peers, ss, es, n);
    r := ReadsAnswer(c, peers, ss[n], caller, callee, data);
    assert RunHasOffer(ss[n], r);
    o :| o in ss[n].offers && o.caller == r.caller && o.callee == r.callee && o.entry.payload == r.payload;
  }

  ghost predicate TaskIs(s: System, p: Key, tid: nat, task: Task) {
    InTask(s, p, tid) && s.pollers[p].tasks[tid] == task
  }

  /** An answer that can be read was put there by a goroutine's StoreAnswer. */
  lemma {:induction false} AnswerWasStored(c: Codec, peers: set<Key>, ss: seq<System>, es: seq<Step>, n: nat,
                                           caller: Key, callee: Key, data: Bytes)
    returns (m: nat, tid: nat, entry: Entry)
    requires GoodCodec(c, peers) && Steps(c, ss, es) && ss[0] == Start(peers) && n <= |es|
    requires caller in peers && callee in peers && Write(AnswerKey(c, caller, callee), data) in ss[n].writes
    ensures m < n && es[m] == StoreAnswer(callee, tid, true)
    ensures TaskIs(ss[m], callee, tid, Task(caller, entry, Answering(data)))
    decreases n
  {
    var s, e, w := ss[n - 1], es[n - 1], Write(AnswerKey(c, caller, callee), data);
    assert CanStep(c, s, e) && ss[n] == Stepped(c, s, e);
    StepGrows(c, s, e);
    if w in s.writes {
      m, tid, entry := AnswerWasStored(c, peers, ss, es, n - 1, caller, callee, data);
    } else {
      SystemInvHolds(c, peers, ss, es, n - 1);
      OnlyStoreAnswer(c, peers, s, e, caller, callee, data);
      m, tid, entry := n - 1, e.tid, s.pollers[callee].tasks[e.tid].entry;
    }
  }

  lemma OnlyStoreAnswer(c: Codec, peers: set<Key>, s: System, e: Step, caller: Key, callee: Key, data: Bytes)
    requires GoodCodec(c, peers) && SystemInv(c, peers, s) && CanStep(c, s, e) && caller in peers && callee in peers
    requires Write(AnswerKey(c, caller, callee), data) in WritesOf(c, s, e)
    ensures e.StoreAnswer? && e.stored && e.p == callee
    ensures var task := s.pollers[callee].tasks[e.tid]; task.caller == caller && task.phase == Answering(data)
  {
    match e
    case StoreOffer(a, b, _) => KeysDiffer(c, peers, a, b, caller, callee);
    case Ring(a, b) => KeysDiffer(c, peers, a, b, caller, callee);
    case ClearBell(p, _, _) => KeysDiffer(c, peers, p, p, caller, callee);
    case StoreAnswer(p, tid, _) =>
      var task := s.pollers[p].tasks[tid];
      assert PollerInv(s, peers, p, s.pollers[p]) && TaskInv(s, p, task);
      assert Offer(task.caller, p, task.entry) in s.offers;
      KeysDiffer(c, peers, task.caller, p, caller, callee);
    case _ =>
  }

  /** A goroutine that has an answer to store got it from its handler. */
  lemma {:induction false} TaskWasAnswered(c: Codec, peers: set<Key>, ss: seq<System>, es: seq<Step>, n: nat,
                                           p: Key, tid: nat, caller: Key, entry: Entry, answer: Bytes) returns (m: nat)
    requires Steps(c, ss, es) && ss[0] == Start(peers) && n <= |es|
    requires TaskIs(ss[n], p, tid, Task(caller, entry, Answering(answer)))
    ensures m < n && es[m] == HandlerAnswers(p, tid, answer) && TaskIs(ss[m], p, tid, Task(caller, entry, Handling))
    decreases n
  {
    var s, e := ss[n - 1], es[n - 1];
    assert CanStep(c, s, e) && ss[n] == Stepped(c, s, e);
    AnsweringBefore(c, s, e, p, tid, caller, entry, answer);
    if e == HandlerAnswers(p, tid, answer) {
      m := n - 1;
    } else {
      m := TaskWasAnswered(c, peers, ss, es, n - 1, p, tid, caller, entry, answer);
    }
  }

  lemma AnsweringBefore(c: Codec, s: System, e: Step, p: Key, tid: nat, caller: Key, entry: Entry, answer: Bytes)
    requires CanStep(c, s, e) && TaskIs(Stepped(c, s, e), p, tid, Task(caller, entry, Answering(answer)))
    ensures if e == HandlerAnswers(p, tid, answer) then TaskIs(s, p, tid, Task(caller, entry, Handling))
            else TaskIs(s, p, tid, Task(caller, entry, Answering(answer)))
  {
  }

  /** Any answer SendOffer returns to caller for callee has this history, for any number of peers and any
      interleaving: this caller stored an offer for this callee; later the handler of one of callee's goroutines, run on
      that offer, gave this answer; later still the same goroutine stored it. */
  lemma AnswersFollowOffers(c: Codec, peers: set<Key>, ss: seq<System>, es: seq<Step>, n: nat,
                            caller: Key, callee: Key, data: Bytes)
    returns (m1: nat, m2: nat, m3: nat, tid: nat, entry: Entry)
    requires GoodCodec(c, peers) && Steps(c, ss, es) && ss[0] == Start(peers) && n <= |es|
    requires caller in peers && callee in peers && Write(AnswerKey(c, caller, callee), data) in ss[n].writes
    ensures m1 < m2 < m3 < n
    ensures es[m1] == StoreOffer(caller, callee, entry) && entry.payload.callerID == caller
    ensures es[m2] == HandlerAnswers(callee, tid, data) && TaskIs(ss[m2], callee, tid, Task(caller, entry, Handling))
    ensures es[m3] == StoreAnswer(callee, tid, true)
            && TaskIs(ss[m3], callee, tid, Task(caller, entry, Answering(data)))
  {
    m3, tid, entry := AnswerWasStored(c, peers, ss, es, n, caller, callee, data);
    m2 := TaskWasAnswered(c, peers, ss, es, m3, callee, tid, caller, entry, data);
    SystemInvHolds(c, peers, ss, es, m2);
    RecordsAreHistory(c, peers, ss, es, m2);
    var task := ss[m2].pollers[callee].tasks[tid];
    assert PollerInv(ss[m2], peers, callee, ss[m2].pollers[callee]) && TaskInv(ss[m2], callee, task);
    var o := Offer(caller, callee, entry);
    assert o in ss[m2].offers;
    m1 :| 0 <= m1 < m2 && es[m1] == StoreOffer(o.caller, o.callee, o.entry);
  }

  /** The record of runs and offers tells the history: each was put there by the step it names. */
  lemma {:induction false} RecordsAreHistory(c: Codec, peers: set<Key>, ss: seq<System>, es: seq<Step>, n: nat)
    requires Steps(c, ss, es) && ss[0] == Start(peers) && n <= |es|
    ensures forall o :: o in ss[n].offers ==> exists m :: 0 <= m < n && es[m] == StoreOffer(o.caller, o.callee, o.entry)
    ensures forall r :: r in ss[n].runs ==> exists m :: 0 <= m < n && RunAt(ss, es, m, r)
    decreases n
  {
    if n > 0 {
      RecordsAreHistory(c, peers, ss, es, n - 1);
      var s, e := ss[n - 1], es[n - 1];
      assert CanStep(c, s, e) && ss[n] == Stepped(c, s, e);
      forall o | o in ss[n].offers
        ensures exists m :: 0 <= m < n && es[m] == StoreOffer(o.caller, o.callee, o.entry)
      {
        if o !in s.offers {
          assert es[n - 1] == StoreOffer(o.caller, o.callee, o.entry);
        }
      }
      forall r | r in ss[n].runs
        ensures exists m :: 0 <= m < n && RunAt(ss, es, m, r)
      {
        if r !in s.runs {
          assert RunAt(ss, es, n - 1, r);
        }
      }
    }
  }

  /** At step m callee's handler, run for this caller on this payload, answers. */
  ghost predicate RunAt(ss: seq<System>, es: seq<Step>, m: nat, r: Run)
    requires m < |es| && |ss| == |es| + 1
  {
    es[m].HandlerAnswers? && es[m].p == r.callee && es[m].answer == r.answer && InTask(ss[m], r.callee, es[m].tid)
    && var task := ss[m].pollers[r.callee].tasks[es[m].tid]; task.caller == r.caller && task.entry.payload == r.payload
  }

  // ---- An offer can be answered ----

  predicate StepsTo(c: Codec, s: System, e: Step, s': System) {
    CanStep(c, s, e) && s' == Stepped(c, s, e)
  }

  /** A's SendOffer stores the offer for B and rings B's doorbell with A's ID. */
  lemma OfferIsSent(c: Codec, s: System, a: Key, b: Key, entry: Entry) returns (s1: System, s2: System)
    requires a in s.pollers && b in s.pollers && entry.payload.callerID == a
    ensures StepsTo(c, s, StoreOffer(a, b, entry), s1) && StepsTo(c, s1, Ring(a, b), s2)
    ensures s2.pollers == s.pollers
    ensures s2.writes == s.writes + {Write(OfferKey(c, a, b), c.encode(entry)), Write(BellKey(c, b), a.bytes)}
  {
    s1 := Stepped(c, s, StoreOffer(a, b, entry));
    s2 := Stepped(c, s1, Ring(a, b));
  }

  /** B's poll loop, idle and with no claim on A, reads its bell, claims A, reads A's offer and spawns a goroutine. */
  lemma OfferIsRead(c: Codec, s: System, a: Key, b: Key, entry: Entry, tid: nat)
    returns (s1: System, s2: System, s3: System)
    requires b in s.pollers && s.pollers[b].loop == Idle && a !in s.pollers[b].processing && tid !in s.pollers[b].tasks
    requires Write(BellKey(c, b), a.bytes) in s.writes && Write(OfferKey(c, a, b), c.encode(entry)) in s.writes
    requires c.decode(c.encode(entry)) == Some(entry)
    ensures StepsTo(c, s, ReadBell(b, a.bytes), s1) && StepsTo(c, s1, Claim(b), s2)
            && StepsTo(c, s2, ReadOffer(b, c.encode(entry), tid), s3)
    ensures s2.pollers[b] == s.pollers[b].(processing := s.pollers[b].processing + {a}, loop := Reading(a))
    ensures s3.writes == s.writes && s3.pollers.Keys == s.pollers.Keys
    ensures var p := s.pollers[b];
            s3.pollers[b] == Poller(p.processing + {a}, Idle, p.tasks[tid := Task(a, entry, Handling)])
  {
    assert Key(a.bytes) == a;
    s1 := Stepped(c, s, ReadBell(b, a.bytes));
    s2 := Stepped(c, s1, Claim(b));
    s3 := Stepped(c, s2, ReadOffer(b, c.encode(entry), tid));
  }

  /** The goroutine's handler answers; the answer is stored, the bell cleared, and A released. */
  lemma OfferIsAnswered(c: Codec, s: System, a: Key, b: Key, entry: Entry, tid: nat, answer: Bytes)
    returns (s1: System, s2: System, s3: System)
    requires b in s.pollers && tid in s.pollers[b].tasks && s.pollers[b].tasks[tid] == Task(a, entry, Handling)
    ensures StepsTo(c, s, HandlerAnswers(b, tid, answer), s1) && StepsTo(c, s1, StoreAnswer(b, tid, true), s2)
            && StepsTo(c, s2, ClearBell(b, tid, true), s3)
    ensures s2.writes == s.writes + {Write(AnswerKey(c, a, b), answer)}
    ensures s3.writes == s2.writes + {Write(BellKey(c, b), [])} && s3.pollers.Keys == s.pollers.Keys
    ensures var p := s.pollers[b]; s3.pollers[b] == Poller(p.processing - {a}, p.loop, p.tasks - {tid})
  {
    s1 := Stepped(c, s, HandlerAnswers(b, tid, answer));
    s2 := Stepped(c, s1, StoreAnswer(b, tid, true));
    s3 := Stepped(c, s2, ClearBell(b, tid, true));
    var p := s.pollers[b];
    assert s3.pollers[b].tasks == p.tasks - {tid};
  }

  lemma {:induction false} FreshTid(used: set<nat>) returns (tid: nat)
    ensures forall t :: t in used ==> t < tid
    decreases |used|
  {
    if used == {} {
      tid := 0;
    } else {
      var t :| t in used;
      var rest := FreshTid(used - {t});
      tid := if rest <= t then t + 1 else rest;
      assert forall u :: u in used ==> u == t || u in used - {t};
    }
  }

  lemma RunOfEight(c: Codec, s0: System, s1: System, s2: System, s3: System, s4: System, s5: System, s6: System,
                   s7: System, s8: System, es: seq<Step>)
    requires |es| == 8
    requires StepsTo(c, s0, es[0], s1) && StepsTo(c, s1, es[1], s2) && StepsTo(c, s2, es[2], s3)
    requires StepsTo(c, s3, es[3], s4) && StepsTo(c, s4, es[4], s5) && StepsTo(c, s5, es[5], s6)
    requires StepsTo(c, s6, es[6], s7) && StepsTo(c, s7, es[7], s8)
    ensures Steps(c, [s0, s1, s2, s3, s4, s5, s6, s7, s8], es)
  {
    hide Stepped, CanStep;
  }

  lemma Reclaimed(p: Poller, a: Key, tid: nat, task: Task)
    requires a !in p.processing && tid !in p.tasks
    ensures Poller(p.processing + {a} - {a}, p.loop, p.tasks[tid := task] - {tid}) == p
  {
    assert p.processing + {a} - {a} == p.processing && p.tasks[tid := task] - {tid} == p.tasks;
  }

  lemma PathOfOffer(c: Codec, s: System, a: Key, b: Key, entry: Entry, tid: nat, answer: Bytes)
    returns (s1: System, s2: System, s3: System, s4: System, s5: System, s6: System, s7: System, s8: System)
    requires c.decode(c.encode(entry)) == Some(entry)
    requires a in s.pollers && b in s.pollers && entry.payload.callerID == a
    requires s.pollers[b].loop == Idle && a !in s.pollers[b].processing && tid !in s.pollers[b].tasks
    ensures StepsTo(c, s, StoreOffer(a, b, entry), s1) && StepsTo(c, s1, Ring(a, b), s2)
    ensures StepsTo(c, s2, ReadBell(b, a.bytes), s3) && StepsTo(c, s3, Claim(b), s4)
    ensures StepsTo(c, s4, ReadOffer(b, c.encode(entry), tid), s5)
    ensures StepsTo(c, s5, HandlerAnswers(b, tid, answer), s6) && StepsTo(c, s6, StoreAnswer(b, tid, true), s7)
    ensures StepsTo(c, s7, ClearBell(b, tid, true), s8)
    ensures Write(AnswerKey(c, a, b), answer) in s8.writes && Write(BellKey(c, b), []) in s8.writes
    ensures b in s8.pollers && s8.pollers[b] == s.pollers[b]
  {
    hide StepsTo;
    s1, s2 := OfferIsSent(c, s, a, b, entry);
    s3, s4, s5 := OfferIsRead(c, s2, a, b, entry, tid);
    s6, s7, s8 := OfferIsAnswered(c, s5, a, b, entry, tid, answer);
    Reclaimed(s.pollers[b], a, tid, Task(a, entry, Handling));
  }

  lemma DecodesBack(c: Codec, peers: set<Key>, entry: Entry)
    requires GoodCodec(c, peers)
    ensures c.decode(c.encode(entry)) == Some(entry)
  {
  }

  /** The steps by which A's offer to B comes to be answered. */
  function OfferPath(c: Codec, a: Key, b: Key, entry: Entry, tid: nat, answer: Bytes): seq<Step> {
    [StoreOffer(a, b, entry), Ring(a, b), ReadBell(b, a.bytes), Claim(b), ReadOffer(b, c.encode(entry), tid),
     HandlerAnswers(b, tid, answer), StoreAnswer(b, tid, true), ClearBell(b, tid, true)]
  }

  lemma PathIsARun(c: Codec, s0: System, s1: System, s2: System, s3: System, s4: System, s5: System, s6: System,
                   s7: System, s8: System, a: Key, b: Key, entry: Entry, tid: nat, answer: Bytes)
    requires StepsTo(c, s0, StoreOffer(a, b, entry), s1) && StepsTo(c, s1, Ring(a, b), s2)
    requires StepsTo(c, s2, ReadBell(b, a.bytes), s3) && StepsTo(c, s3, Claim(b), s4)
    requires StepsTo(c, s4, ReadOffer(b, c.encode(entry), tid), s5)
    requires StepsTo(c, s5, HandlerAnswers(b, tid, answer), s6) && StepsTo(c, s6, StoreAnswer(b, tid, true), s7)
    requires StepsTo(c, s7, ClearBell(b, tid, true), s8)
    ensures Steps(c, [s0, s1, s2, s3, s4, s5, s6, s7, s8], OfferPath(c, a, b, entry, tid, answer))
  {
    hide StepsTo, Steps;
    RunOfEight(c, s0, s1, s2, s3, s4, s5, s6, s7, s8, OfferPath(c, a, b, entry, tid, answer));
  }

  /** From every state in which B's loop is idle and has no claim on A, A's offer can be answered with whatever B's
      handler makes of it: A stores it and rings, B reads its bell and the offer, its handler answers, the answer is
      stored under the key A reads, and everything claimed is released. */
  lemma OfferCanBeAnswered(c: Codec, peers: set<Key>, s: System, a: Key, b: Key, entry: Entry, answer: Bytes)
    returns (ss: seq<System>, tid: nat)
    requires GoodCodec(c, peers) && a in s.pollers && b in s.pollers && entry.payload.callerID == a
    requires s.pollers[b].loop == Idle && a !in s.pollers[b].processing
    ensures Steps(c, ss, OfferPath(c, a, b, entry, tid, answer)) && |ss| == 9 && ss[0] == s
    ensures Write(AnswerKey(c, a, b), answer) in ss[8].writes && Write(BellKey(c, b), []) in ss[8].writes
    ensures b in ss[8].pollers && ss[8].pollers[b] == s.pollers[b]
  {
    DecodesBack(c, peers, entry);
    hide StepsTo, Steps, GoodCodec, OfferPath;
    tid := FreshTid(s.pollers[b].tasks.Keys);
    assert tid !in s.pollers[b].tasks.Keys;
    var s1, s2, s3, s4, s5, s6, s7, s8 := PathOfOffer(c, s, a, b, entry, tid, answer);
    PathIsARun(c, s, s1, s2, s3, s4, s5, s6, s7, s8, a, b, entry, tid, answer);
    ss := [s, s1, s2, s3, s4, s5, s6, s7, s8];
  }

  // ---- The other paths ----

  /** What may go wrong can: a loop that reads an offer may give up, a handler may fail, and the result of storing an
      answer or of clearing the bell may be that nothing is stored. */
  lemma FailuresAreOpen(c: Codec, s: System, p: Key, tid: nat)
    requires p in s.pollers
    ensures s.pollers[p].loop.Reading? ==> CanStep(c, s, GiveUp(p))
    ensures tid in s.pollers[p].tasks && s.pollers[p].tasks[tid].phase == Handling ==>
              CanStep(c, s, HandlerFails(p, tid))
    ensures tid in s.pollers[p].tasks && s.pollers[p].tasks[tid].phase.Answering? ==>
              CanStep(c, s, StoreAnswer(p, tid, false)) && Stepped(c, s, StoreAnswer(p, tid, false)).writes == s.writes
    ensures tid in s.pollers[p].tasks && s.pollers[p].tasks[tid].phase == Clearing ==>
              CanStep(c, s, ClearBell(p, tid, false)) && Stepped(c, s, ClearBell(p, tid, false)).writes == s.writes
  {
  }

  /** A caller that is claimed already is skipped; a loop that gives up and a goroutine whose handler fails release
      their caller; none of them writes anything, and no other poller changes. */
  lemma OtherPathsRelease(c: Codec, s: System, e: Step, p: Key, other: Key)
    requires CanStep(c, s, e) && (e.Claim? || e.GiveUp? || e.HandlerFails?) && e.p == p
    ensures var s', was := Stepped(c, s, e), s.pollers[p];
            s'.writes == s.writes
            && (e.Claim? && was.loop.caller in was.processing ==> s'.pollers[p] == was.(loop := Idle))
            && (e.Claim? && was.loop.caller !in was.processing ==>
                  s'.pollers[p].processing == was.processing + {was.loop.caller}
                  && s'.pollers[p].loop == Reading(was.loop.caller) && s'.pollers[p].tasks == was.tasks)
            && (e.GiveUp? ==> s'.pollers[p] == was.(processing := was.processing - {was.loop.caller}, loop := Idle))
            && (e.HandlerFails? ==>
                  s'.pollers[p].processing == was.processing - {was.tasks[e.tid].caller}
                  && s'.pollers[p].loop == was.loop && s'.pollers[p].tasks == was.tasks - {e.tid})
            && (other in s.pollers && other != p ==> other in s'.pollers && s'.pollers[other] == s.pollers[other])
  {
  }
}
