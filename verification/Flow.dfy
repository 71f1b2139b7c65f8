/** Backpressure on the blob channel: how far concurrent senders can overfill it, and why one sender never sleeps on. */
module Flow {
  import opened Bits
  import opened Keys
  import opened Options
  import opened Blob

  const BLOB_BUFFER_THRESHOLD: nat := 8 * 1024 * 1024
  const FRAME_LIMIT: nat := BLOB_CHUNK_SIZE + HEADER_SIZE

  // ---- Any number of senders ----

  /** cleared: the senders that have seen the buffer at or below the threshold and have not sent since. */
  datatype Channel = Channel(buffered: nat, cleared: set<nat>)

  /** Reading the buffered amount and sending are separate steps, so other senders come between them. */
  datatype Move = Check(sender: nat) | Send(sender: nat, size: nat) | Drain(amount: nat)

  predicate CanMove(c: Channel, senders: nat, m: Move) {
    match m
    case Check(i) => i < senders && i !in c.cleared
    case Send(i, size) => i in c.cleared && size <= FRAME_LIMIT
    case Drain(amount) => amount <= c.buffered
  }

  function Moved(c: Channel, senders: nat, m: Move): Channel
    requires CanMove(c, senders, m)
  {
    match m
    case Check(i) => if c.buffered > BLOB_BUFFER_THRESHOLD then c else c.(cleared := c.cleared + {i})
    case Send(i, size) => Channel(c.buffered + size, c.cleared - {i})
    case Drain(amount) => c.(buffered := c.buffered - amount)
  }

  ghost predicate Moves(cs: seq<Channel>, senders: nat, ms: seq<Move>) {
    |cs| == |ms| + 1
    && forall n :: 0 <= n < |ms| ==> CanMove(cs[n], senders, ms[n]) && cs[n + 1] == Moved(cs[n], senders, ms[n])
  }

  /** Room is kept for one frame of every sender that has been cleared. */
  ghost predicate Bounded(c: Channel, senders: nat) {
    c.buffered + |c.cleared| * FRAME_LIMIT <= BLOB_BUFFER_THRESHOLD + senders * FRAME_LIMIT
    && forall i :: i in c.cleared ==> i < senders
  }

  lemma MoveKeepsBounded(c: Channel, senders: nat, m: Move)
    requires Bounded(c, senders) && CanMove(c, senders, m)
    ensures Bounded(Moved(c, senders, m), senders)
  {
    if m.Check? && c.buffered <= BLOB_BUFFER_THRESHOLD {
      var cleared := c.cleared + {m.sender};
      BoundedSetSize(cleared, senders);
      assert |cleared| * FRAME_LIMIT <= senders * FRAME_LIMIT;
    }
    if m.Send? {
      assert |c.cleared - {m.sender}| == |c.cleared| - 1;
    }
  }

  /** A sender that has not been cleared may send after a check exactly when the check found the buffer low. */
  lemma CheckClearsIff(c: Channel, senders: nat, i: nat, size: nat)
    requires CanMove(c, senders, Check(i)) && size <= FRAME_LIMIT
    ensures CanMove(Moved(c, senders, Check(i)), senders, Send(i, size)) <==> c.buffered <= BLOB_BUFFER_THRESHOLD
    ensures Moved(c, senders, Check(i)).buffered == c.buffered
  {
  }

  /** The last of a sender's own moves before n, if it made one. */
  function LastMove(ms: seq<Move>, n: nat, i: nat): (last: Option<nat>)
    requires n <= |ms|
    ensures last.Some? ==> last.value < n
    decreases n
  {
    if n == 0 then None
    else if !ms[n - 1].Drain? && ms[n - 1].sender == i then Some(n - 1)
    else LastMove(ms, n - 1, i)
  }

  /** A sender may send exactly when its last move was a check that found the buffer low. */
  lemma {:induction false} ClearedIff(cs: seq<Channel>, senders: nat, ms: seq<Move>, n: nat, i: nat)
    requires Moves(cs, senders, ms) && n <= |ms| && cs[0].cleared == {}
    ensures i in cs[n].cleared
      <==> LastMove(ms, n, i).Some?
           && var k := LastMove(ms, n, i).value; ms[k] == Check(i) && cs[k].buffered <= BLOB_BUFFER_THRESHOLD
    decreases n
  {
    if n > 0 {
      ClearedIff(cs, senders, ms, n - 1, i);
      assert CanMove(cs[n - 1], senders, ms[n - 1]) && cs[n] == Moved(cs[n - 1], senders, ms[n - 1]);
    }
  }

  function SentBy(ms: seq<Move>, n: nat): nat
    requires n <= |ms|
  {
    if n == 0 then 0 else SentBy(ms, n - 1) + if ms[n - 1].Send? then ms[n - 1].size else 0
  }

  function DrainedBy(ms: seq<Move>, n: nat): nat
    requires n <= |ms|
  {
    if n == 0 then 0 else DrainedBy(ms, n - 1) + if ms[n - 1].Drain? then ms[n - 1].amount else 0
  }

  /** What is buffered is what was sent and has not drained. */
  lemma {:induction false} BufferedIsConserved(cs: seq<Channel>, senders: nat, ms: seq<Move>, n: nat)
    requires Moves(cs, senders, ms) && n <= |ms|
    ensures cs[n].buffered + DrainedBy(ms, n) == cs[0].buffered + SentBy(ms, n)
    decreases n
  {
    if n > 0 {
      BufferedIsConserved(cs, senders, ms, n - 1);
      assert CanMove(cs[n - 1], senders, ms[n - 1]) && cs[n] == Moved(cs[n - 1], senders, ms[n - 1]);
    }
  }

  /** A channel may drain by any part of what is buffered; drained to the threshold it clears whoever checks. */
  lemma DrainingClears(c: Channel, senders: nat, i: nat)
    requires i < senders && i !in c.cleared && c.buffered > BLOB_BUFFER_THRESHOLD
    ensures var d, check := Drain(c.buffered - BLOB_BUFFER_THRESHOLD), Check(i);
            CanMove(c, senders, check) && Moved(c, senders, check) == c
            && CanMove(c, senders, d) && CanMove(Moved(c, senders, d), senders, check)
            && i in Moved(Moved(c, senders, d), senders, check).cleared
    ensures forall amount :: 0 <= amount <= c.buffered ==> CanMove(c, senders, Drain(amount))
  {
  }

  ghost predicate Upto(cleared: set<nat>, n: nat) {
    forall i: nat :: i in cleared <==> i < n
  }

  lemma MovesSnoc(cs: seq<Channel>, senders: nat, ms: seq<Move>, m: Move)
    requires Moves(cs, senders, ms) && CanMove(cs[|ms|], senders, m)
    ensures Moves(cs + [Moved(cs[|ms|], senders, m)], senders, ms + [m])
  {
  }

  /** All of m senders check a buffer that is just at the threshold ... */
  lemma {:induction false} AllCheck(senders: nat, n: nat) returns (cs: seq<Channel>, ms: seq<Move>)
    requires n <= senders
    ensures Moves(cs, senders, ms) && cs[0] == Channel(BLOB_BUFFER_THRESHOLD, {})
    ensures cs[|ms|].buffered == BLOB_BUFFER_THRESHOLD && Upto(cs[|ms|].cleared, n)
    decreases n
  {
    if n == 0 {
      cs, ms := [Channel(BLOB_BUFFER_THRESHOLD, {})], [];
    } else {
      cs, ms := AllCheck(senders, n - 1);
      MovesSnoc(cs, senders, ms, Check(n - 1));
      cs, ms := cs + [Moved(cs[|ms|], senders, Check(n - 1))], ms + [Check(n - 1)];
    }
  }

  /** ... and then each of them sends a whole frame. */
  lemma {:induction false} SomeSend(senders: nat, n: nat) returns (cs: seq<Channel>, ms: seq<Move>)
    requires n <= senders
    ensures Moves(cs, senders, ms) && cs[0] == Channel(BLOB_BUFFER_THRESHOLD, {})
    ensures cs[|ms|].buffered == BLOB_BUFFER_THRESHOLD + n * FRAME_LIMIT && Upto(cs[|ms|].cleared, senders - n)
    decreases n
  {
    if n == 0 {
      cs, ms := AllCheck(senders, senders);
    } else {
      cs, ms := SomeSend(senders, n - 1);
      var send := Send(senders - n, FRAME_LIMIT);
      MovesSnoc(cs, senders, ms, send);
      cs, ms := cs + [Moved(cs[|ms|], senders, send)], ms + [send];
    }
  }

  /** The bound of BackpressureBound is reached, for every number of senders. */
  lemma BoundIsReached(senders: nat) returns (cs: seq<Channel>, ms: seq<Move>)
    ensures Moves(cs, senders, ms) && cs[0] == Channel(BLOB_BUFFER_THRESHOLD, {})
    ensures cs[|ms|].buffered == BLOB_BUFFER_THRESHOLD + senders * FRAME_LIMIT
  {
    cs, ms := SomeSend(senders, senders);
  }

  /** m concurrent sends never buffer more than the threshold and one frame for each of them. */
  lemma {:induction false} BackpressureBound(cs: seq<Channel>, senders: nat, ms: seq<Move>, n: nat)
    requires Moves(cs, senders, ms) && n <= |ms|
    requires cs[0].buffered <= BLOB_BUFFER_THRESHOLD && cs[0].cleared == {}
    ensures Bounded(cs[n], senders) && cs[n].buffered <= BLOB_BUFFER_THRESHOLD + senders * FRAME_LIMIT
    decreases n
  {
    if n > 0 {
      BackpressureBound(cs, senders, ms, n - 1);
      MoveKeepsBounded(cs[n - 1], senders, ms[n - 1]);
    }
  }

  /** The frames SendBlobChunked makes are within the limit the senders are held to. */
  lemma FramesFit(reqID: Bytes, data: Bytes, i: nat)
    requires i < |Frames(reqID, data, 0)|
    ensures |Frames(reqID, data, 0)[i]| <= FRAME_LIMIT
  {
    FrameShape(reqID, data, 0);
  }

  // ---- One sender and the low-buffer signal ----

  /** Where the one sender is: about to read the buffered amount, blocked on the signal, or free to send. */
  datatype Pc = Reading | Blocked | Sending

  /** signal: the one slot of the signal channel is taken. callbacks: low-buffer events not yet handled. */
  datatype Sender = Sender(buffered: nat, signal: bool, callbacks: nat, pc: Pc)

  datatype Act = ReadAmount | TakeSignal | SendFrame(size: nat) | DrainBy(amount: nat) | RunCallback

  predicate CanAct(s: Sender, a: Act) {
    match a
    case ReadAmount => s.pc == Reading
    case TakeSignal => s.pc == Blocked && s.signal
    case SendFrame(size) => s.pc == Sending
    case DrainBy(amount) => amount <= s.buffered
    case RunCallback => s.callbacks > 0
  }

  /** The event fires when the amount falls from above the threshold to it or below; a callback whose slot is already
      taken drops its signal. */
  function Acted(s: Sender, a: Act): Sender
    requires CanAct(s, a)
  {
    match a
    case ReadAmount => s.(pc := if s.buffered > BLOB_BUFFER_THRESHOLD then Blocked else Sending)
    case TakeSignal => s.(signal := false, pc := Reading)
    case SendFrame(size) => s.(buffered := s.buffered + size, pc := Reading)
    case DrainBy(amount) =>
      var left := s.buffered - amount;
      s.(buffered := left,
         callbacks := if s.buffered > BLOB_BUFFER_THRESHOLD >= left then s.callbacks + 1 else s.callbacks)
    case RunCallback => s.(callbacks := s.callbacks - 1, signal := true)
  }

  ghost predicate Acts(ss: seq<Sender>, acts: seq<Act>) {
    |ss| == |acts| + 1
    && forall n :: 0 <= n < |acts| ==> CanAct(ss[n], acts[n]) && ss[n + 1] == Acted(ss[n], acts[n])
  }

  /** A blocked sender with nothing to wake it is right to wait. */
  ghost predicate WakeInv(s: Sender) {
    s.pc == Blocked && !s.signal && s.callbacks == 0 ==> s.buffered > BLOB_BUFFER_THRESHOLD
  }

  lemma {:induction false} NoLostWakeup(ss: seq<Sender>, acts: seq<Act>, n: nat)
    requires Acts(ss, acts) && n <= |acts| && ss[0] == Sender(ss[0].buffered, false, 0, Reading)
    ensures WakeInv(ss[n])
    decreases n
  {
    if n > 0 {
      NoLostWakeup(ss, acts, n - 1);
      assert CanAct(ss[n - 1], acts[n - 1]) && ss[n] == Acted(ss[n - 1], acts[n - 1]);
    }
  }

  /** What one sender does with the amount it reads: above the threshold it blocks, otherwise it may send. So it never
      sends while the buffer is above the threshold, and never overfills it by more than one frame. */
  lemma {:induction false} OneSenderBound(ss: seq<Sender>, acts: seq<Act>, n: nat)
    requires Acts(ss, acts) && n <= |acts| && ss[0] == Sender(ss[0].buffered, false, 0, Reading)
    requires ss[0].buffered <= BLOB_BUFFER_THRESHOLD
    requires forall k :: 0 <= k < |acts| && acts[k].SendFrame? ==> acts[k].size <= FRAME_LIMIT
    ensures ss[n].buffered <= BLOB_BUFFER_THRESHOLD + FRAME_LIMIT
    ensures ss[n].pc == Sending ==> ss[n].buffered <= BLOB_BUFFER_THRESHOLD
    decreases n
  {
    if n > 0 {
      OneSenderBound(ss, acts, n - 1);
      assert CanAct(ss[n - 1], acts[n - 1]) && ss[n] == Acted(ss[n - 1], acts[n - 1]);
    }
  }

  /** A reading decides which way the sender goes, and only a reading lets it send. */
  lemma ReadingDecides(s: Sender, a: Act)
    requires CanAct(s, a) && s.pc == Reading && !a.DrainBy? && !a.RunCallback?
    ensures Acted(s, a).pc == Blocked <==> s.buffered > BLOB_BUFFER_THRESHOLD
    ensures Acted(s, a).pc == Sending <==> s.buffered <= BLOB_BUFFER_THRESHOLD
  {
  }

  /** A sender that may send can send a frame of any size, and goes on reading; the buffer can always drain. */
  lemma SendingIsOpen(s: Sender, size: nat, amount: nat)
    ensures s.pc == Sending ==>
              CanAct(s, SendFrame(size))
              && Acted(s, SendFrame(size)) == s.(buffered := s.buffered + size, pc := Reading)
    ensures amount <= s.buffered ==>
              CanAct(s, DrainBy(amount)) && Acted(s, DrainBy(amount)).buffered == s.buffered - amount
  {
  }

  function Count(acts: seq<Act>, n: nat, counts: Act -> bool): nat
    requires n <= |acts|
  {
    if n == 0 then 0 else Count(acts, n - 1, counts) + if counts(acts[n - 1]) then 1 else 0
  }

  function AmountOf(acts: seq<Act>, n: nat, sent: bool): nat
    requires n <= |acts|
  {
    if n == 0 then 0
    else AmountOf(acts, n - 1, sent)
         + match acts[n - 1]
           case SendFrame(size) => if sent then size else 0
           case DrainBy(amount) => if sent then 0 else amount
           case _ => 0
  }

  /** How often the buffer fell from above the threshold to it or below. */
  ghost function Crossings(ss: seq<Sender>, n: nat): nat
    requires n < |ss|
  {
    if n == 0 then 0
    else Crossings(ss, n - 1) + if ss[n - 1].buffered > BLOB_BUFFER_THRESHOLD >= ss[n].buffered then 1 else 0
  }

  /** The books of one sender: what is buffered is what was sent and has not drained; the callbacks due are the
      crossings whose callback has not run; and the slot is taken exactly when a callback ran after the last wakeup. */
  lemma {:induction false} SenderBooks(ss: seq<Sender>, acts: seq<Act>, n: nat)
    requires Acts(ss, acts) && n <= |acts| && ss[0] == Sender(ss[0].buffered, false, 0, Reading)
    ensures ss[n].buffered + AmountOf(acts, n, false) == ss[0].buffered + AmountOf(acts, n, true)
    ensures ss[n].callbacks + Count(acts, n, (a: Act) => a.RunCallback?) == Crossings(ss, n)
    ensures ss[n].signal <==> exists k :: 0 <= k < n && acts[k].RunCallback?
                                          && forall l :: k < l < n ==> !acts[l].TakeSignal?
    decreases n
  {
    if n > 0 {
      SenderBooks(ss, acts, n - 1);
      assert CanAct(ss[n - 1], acts[n - 1]) && ss[n] == Acted(ss[n - 1], acts[n - 1]);
      if acts[n - 1].RunCallback? {
        assert ss[n].signal;
      } else if !acts[n - 1].TakeSignal? && ss[n - 1].signal {
        var k :| 0 <= k < n - 1 && acts[k].RunCallback? && forall l :: k < l < n - 1 ==> !acts[l].TakeSignal?;
        assert forall l :: k < l < n ==> !acts[l].TakeSignal?;
      }
    }
  }

  // ---- Draining releases the sender under every schedule ----

  function Rank(pc: Pc): nat {
    match pc
    case Blocked => 2
    case Reading => 1
    case Sending => 0
  }

  /** How many steps other than draining can still come before the sender is free to send. */
  function Work(s: Sender): nat {
    s.callbacks + Rank(s.pc)
  }

  predicate SenderCanGoOn(s: Sender) {
    CanAct(s, RunCallback) || CanAct(s, TakeSignal) || CanAct(s, ReadAmount)
  }

  /** With the buffer at or below the threshold, any step that does not send leaves it there, and uses up work unless
      it drains. */
  lemma ActReleases(s: Sender, a: Act)
    requires s.buffered <= BLOB_BUFFER_THRESHOLD && s.pc != Sending && CanAct(s, a)
    ensures Acted(s, a).buffered <= BLOB_BUFFER_THRESHOLD
    ensures if a.DrainBy? then Work(Acted(s, a)) == Work(s) && Acted(s, a).pc == s.pc else Work(Acted(s, a)) < Work(s)
  {
  }

  /** The steps from m to n that are not draining. */
  function Busy(acts: seq<Act>, m: nat, n: nat): nat
    requires m <= n <= |acts|
    decreases n
  {
    if m == n then 0 else Busy(acts, m, n - 1) + if acts[n - 1].DrainBy? then 0 else 1
  }

  ghost predicate WaitsThrough(ss: seq<Sender>, m: nat, n: nat) {
    m <= n <= |ss| && forall k :: m <= k < n ==> ss[k].pc != Sending
  }

  /** Once the buffer has drained to the threshold at step m, whatever is scheduled: until the sender is free to send
      the buffer stays down, the steps taken besides draining are at most the callbacks due and two more, and there is
      always another such step to take. */
  lemma {:induction false} DrainingReleases(ss: seq<Sender>, acts: seq<Act>, m: nat, n: nat)
    requires Acts(ss, acts) && ss[0] == Sender(ss[0].buffered, false, 0, Reading)
    requires m <= n <= |acts| && ss[m].buffered <= BLOB_BUFFER_THRESHOLD && WaitsThrough(ss, m, n)
    ensures ss[n].buffered <= BLOB_BUFFER_THRESHOLD
    ensures Busy(acts, m, n) + Work(ss[n]) <= Work(ss[m]) <= ss[m].callbacks + 2
    ensures ss[n].pc != Sending ==> SenderCanGoOn(ss[n])
    decreases n
  {
    NoLostWakeup(ss, acts, n);
    if m < n {
      DrainingReleases(ss, acts, m, n - 1);
      ActReleases(ss[n - 1], acts[n - 1]);
    }
  }
}
