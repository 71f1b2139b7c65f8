/** The blob channel of transport/webrtc/webrtc.go: blobs cut into frames, frames of many blobs on one channel, and
    each pending request put together again. */
module Blob {
  import opened Keys
  import opened Options

  const BLOB_CHUNK_SIZE: nat := 256 * 1024
  const ID_SIZE: nat := 32
  const HEADER_SIZE: nat := 33

  // ---- Sending ----

  /** The identifier's place in a frame: cut or filled up with zeros to 32 bytes. */
  function IdField(reqID: Bytes): (field: Bytes)
    ensures |field| == ID_SIZE
    ensures |reqID| == ID_SIZE ==> field == reqID
  {
    if |reqID| >= ID_SIZE then reqID[..ID_SIZE] else reqID + seq(ID_SIZE - |reqID|, i => 0)
  }

  /** A short identifier is filled up with zeros, a long one is cut. */
  lemma IdFieldShape(reqID: Bytes, k: nat)
    requires k < ID_SIZE
    ensures IdField(reqID)[k] == if k < |reqID| then reqID[k] else 0
  {
  }

  function ChunkEnd(offset: nat, length: nat): nat {
    if offset + BLOB_CHUNK_SIZE >= length then length else offset + BLOB_CHUNK_SIZE
  }

  function Frame(reqID: Bytes, data: Bytes, offset: nat): (f: Bytes)
    requires offset < |data|
    ensures |f| >= HEADER_SIZE && f[..ID_SIZE] == IdField(reqID)
    ensures f[ID_SIZE] == if ChunkEnd(offset, |data|) == |data| then 1 else 0
    ensures f[HEADER_SIZE..] == data[offset..ChunkEnd(offset, |data|)]
  {
    var last: byte := if ChunkEnd(offset, |data|) == |data| then 1 else 0;
    IdField(reqID) + [last] + data[offset..ChunkEnd(offset, |data|)]
  }

  function Frames(reqID: Bytes, data: Bytes, offset: nat): seq<Bytes>
    decreases |data| - offset
  {
    if offset >= |data| then [] else [Frame(reqID, data, offset)] + Frames(reqID, data, ChunkEnd(offset, |data|))
  }

  /** What has been handed to a data channel, which keeps frames in order and loses none. */
  class DataChannel {
    var sent: seq<Bytes>

    constructor ()
      ensures sent == []
    {
      sent := [];
    }

    /** accepts decides whether the channel takes the frame. */
    method Send(frame: Bytes, accepts: bool)
      modifies this
      ensures sent == if accepts then old(sent) + [frame] else old(sent)
    {
      if accepts {
        sent := sent + [frame];
      }
    }
  }

  /** All frames in order, or, when the channel refuses one, those before it. */
  method SendBlobChunked(dc: DataChannel, reqID: Bytes, data: Bytes, accepts: nat -> bool)
    returns (ok: bool, ghost count: nat)
    modifies dc
    ensures count <= |Frames(reqID, data, 0)| && dc.sent == old(dc.sent) + Frames(reqID, data, 0)[..count]
    ensures forall i :: 0 <= i < count ==> accepts(i)
    ensures ok <==> count == |Frames(reqID, data, 0)|
    ensures !ok ==> !accepts(count)
  {
    ghost var all := Frames(reqID, data, 0);
    var offset, n: nat := 0, 0;
    while offset < |data|
      invariant offset <= |data| && n <= |all| && all[n..] == Frames(reqID, data, offset)
      invariant dc.sent == old(dc.sent) + all[..n]
      invariant forall i :: 0 <= i < n ==> accepts(i)
      decreases |data| - offset
    {
      var end := offset + BLOB_CHUNK_SIZE;
      var isLast: byte := 0;
      if end >= |data| {
        end, isLast := |data|, 1;
      }
      var frame := IdField(reqID) + [isLast] + data[offset..end];
      assert frame == Frame(reqID, data, offset) == all[n..][0];
      dc.Send(frame, accepts(n));
      if !accepts(n) {
        return false, n;
      }
      assert all[n + 1..] == all[n..][1..];
      offset, n := end, n + 1;
    }
    return true, n;
  }

  lemma OneFrame(reqID: Bytes, data: Bytes, offset: nat)
    requires offset < |data|
    ensures var f, end := Frame(reqID, data, offset), ChunkEnd(offset, |data|);
            HEADER_SIZE < |f| <= HEADER_SIZE + BLOB_CHUNK_SIZE && f[..ID_SIZE] == IdField(reqID)
            && f[ID_SIZE] == (if Frames(reqID, data, end) == [] then 1 else 0)
            && Frames(reqID, data, offset) == [f] + Frames(reqID, data, end)
  {
    hide IdField;
    var f, end := Frame(reqID, data, offset), ChunkEnd(offset, |data|);
    assert |f| == HEADER_SIZE + |f[HEADER_SIZE..]| == HEADER_SIZE + (end - offset);
  }

  /** ceil(length / chunk) frames, only the last one flagged, none longer than a chunk and its header. */
  lemma {:induction false} FrameShape(reqID: Bytes, data: Bytes, offset: nat)
    requires offset <= |data|
    ensures var fs := Frames(reqID, data, offset);
            BLOB_CHUNK_SIZE * |fs| >= |data| - offset > BLOB_CHUNK_SIZE * (|fs| - 1)
            && (forall i :: 0 <= i < |fs| ==>
                  HEADER_SIZE < |fs[i]| <= HEADER_SIZE + BLOB_CHUNK_SIZE && fs[i][..ID_SIZE] == IdField(reqID)
                  && fs[i][ID_SIZE] == (if i == |fs| - 1 then 1 else 0))
    decreases |data| - offset
  {
    if offset < |data| {
      var end := ChunkEnd(offset, |data|);
      OneFrame(reqID, data, offset);
      FrameShape(reqID, data, end);
      hide Frame, Frames, IdField;
      var fs, rest := Frames(reqID, data, offset), Frames(reqID, data, end);
      forall i | 0 <= i < |fs|
        ensures HEADER_SIZE < |fs[i]| <= HEADER_SIZE + BLOB_CHUNK_SIZE && fs[i][..ID_SIZE] == IdField(reqID)
                && fs[i][ID_SIZE] == if i == |fs| - 1 then 1 else 0
      {
        assert i > 0 ==> fs[i] == rest[i - 1];
      }
    }
  }

  // ---- Receiving ----

  /** What has arrived of a blob, and the channel of capacity one on which FetchBlob waits for the whole. */
  datatype PendingBlob = PendingBlob(buf: Bytes, ch: seq<Bytes>)

  /** The whole blob a frame completes. An append of nothing to nothing is nil in the source and is not delivered. */
  function Completed(bp: PendingBlob, frame: Bytes): Option<Bytes>
    requires |frame| >= HEADER_SIZE
  {
    var buf := bp.buf + frame[HEADER_SIZE..];
    if frame[ID_SIZE] == 1 && |buf| > 0 then Some(buf) else None
  }

  function Absorb(bp: PendingBlob, frame: Bytes): PendingBlob
    requires |frame| >= HEADER_SIZE
  {
    PendingBlob(
      if frame[ID_SIZE] == 1 then [] else bp.buf + frame[HEADER_SIZE..],
      match Completed(bp, frame)
      case None => bp.ch
      case Some(full) => if bp.ch == [] then [full] else bp.ch)
  }

  predicate ForId(frame: Bytes, id: Bytes) {
    |frame| >= HEADER_SIZE && frame[..ID_SIZE] == id
  }

  function Receive(pending: map<Bytes, PendingBlob>, frame: Bytes): map<Bytes, PendingBlob> {
    if |frame| < HEADER_SIZE || frame[..ID_SIZE] !in pending then pending
    else pending[frame[..ID_SIZE] := Absorb(pending[frame[..ID_SIZE]], frame)]
  }

  class PeerConn {
    var blobPending: map<Bytes, PendingBlob>

    constructor ()
      ensures blobPending == map[]
    {
      blobPending := map[];
    }

    /** FetchBlob, from where it has the request's identifier. The frames are those that arrive before it stops
        waiting, for its own request or for others; gaveUp says that an error reply or the timer ended its wait. Fed
        with its own blob's frames among any others it returns that blob. */
    method FetchBlob(reqID: Bytes, arriving: seq<Bytes>, gaveUp: bool) returns (data: Option<Bytes>)
      modifies this
      ensures blobPending == ReceiveAll(old(blobPending)[reqID := PendingBlob([], [])], arriving) - {reqID}
      ensures gaveUp ==> data == None
      ensures !gaveUp ==>
        var whole := Offered(PendingBlob([], []), Project(arriving, reqID));
        data == if whole == [] then None else Some(whole[0])
      ensures !gaveUp ==>
        forall tags, blobs :: Interleaves(arriving, tags, blobs) && reqID in blobs ==>
          data == if blobs[reqID] == [] then None else Some(blobs[reqID])
    {
      Expect(reqID);
      ghost var start := blobPending;
      for i := 0 to |arriving|
        invariant blobPending == ReceiveAll(start, arriving[..i]) && reqID in blobPending
      {
        ReceiveAllSnoc(start, arriving, i);
        OnBlobMsg(arriving[i]);
      }
      assert arriving[..|arriving|] == arriving;
      RequestsAreIndependent(start, arriving, reqID);
      ChannelKeepsFirst(PendingBlob([], []), Project(arriving, reqID));
      var ch := blobPending[reqID].ch;
      data := if gaveUp || |ch| == 0 then None else Some(ch[0]);
      blobPending := blobPending - {reqID};
      forall tags, blobs | Interleaves(arriving, tags, blobs) && reqID in blobs
        ensures !gaveUp ==> data == if blobs[reqID] == [] then None else Some(blobs[reqID])
      {
        BlobsReassemble(arriving, tags, blobs, start, reqID);
      }
    }

    /** FetchBlob registers the request before it asks for the blob. */
    method Expect(reqID: Bytes)
      modifies this
      ensures blobPending == old(blobPending)[reqID := PendingBlob([], [])]
    {
      blobPending := blobPending[reqID := PendingBlob([], [])];
    }

    method OnBlobMsg(data: Bytes)
      modifies this
      ensures blobPending == Receive(old(blobPending), data)
      ensures |data| < HEADER_SIZE || data[..ID_SIZE] !in old(blobPending) ==> blobPending == old(blobPending)
      ensures blobPending.Keys == old(blobPending).Keys
      ensures forall id :: id in old(blobPending) && !ForId(data, id) ==> blobPending[id] == old(blobPending)[id]
    {
      if |data| < HEADER_SIZE {
        return;
      }
      var reqID, isLast, chunk := data[..ID_SIZE], data[ID_SIZE], data[HEADER_SIZE..];
      if reqID !in blobPending {
        return;
      }
      var bp := blobPending[reqID];
      var buf, full, ch := bp.buf + chunk, [], bp.ch;
      if isLast == 1 {
        full, buf := buf, [];
      }
      if |full| > 0 {
        if |ch| == 0 {
          ch := [full];
        }
      }
      assert PendingBlob(buf, ch) == Absorb(bp, data);
      blobPending := blobPending[reqID := PendingBlob(buf, ch)];
    }
  }

  // ---- Streams of frames ----

  function ReceiveAll(pending: map<Bytes, PendingBlob>, stream: seq<Bytes>): map<Bytes, PendingBlob> {
    if stream == [] then pending else ReceiveAll(Receive(pending, stream[0]), stream[1..])
  }

  lemma {:induction false} ReceiveAllSnoc(pending: map<Bytes, PendingBlob>, stream: seq<Bytes>, i: nat)
    requires i < |stream|
    ensures ReceiveAll(pending, stream[..i + 1]) == Receive(ReceiveAll(pending, stream[..i]), stream[i])
    decreases i
  {
    if i > 0 {
      var rest := stream[1..];
      assert stream[..i][1..] == rest[..i - 1] && stream[..i + 1][1..] == rest[..i];
      ReceiveAllSnoc(Receive(pending, stream[0]), rest, i - 1);
    }
  }

  function AbsorbAll(bp: PendingBlob, frames: seq<Bytes>): PendingBlob
    requires forall f :: f in frames ==> |f| >= HEADER_SIZE
    decreases |frames|
  {
    if frames == [] then bp else AbsorbAll(Absorb(bp, frames[0]), frames[1..])
  }

  /** Every whole blob the frames complete, whether or not the waiting channel still has room for it. */
  function Offered(bp: PendingBlob, frames: seq<Bytes>): seq<Bytes>
    requires forall f :: f in frames ==> |f| >= HEADER_SIZE
    decreases |frames|
  {
    if frames == [] then []
    else
      (match Completed(bp, frames[0])
       case None => []
       case Some(full) => [full])
      + Offered(Absorb(bp, frames[0]), frames[1..])
  }

  /** The waiting channel takes the first whole blob; later ones are dropped. */
  lemma {:induction false} ChannelKeepsFirst(bp: PendingBlob, frames: seq<Bytes>)
    requires forall f :: f in frames ==> |f| >= HEADER_SIZE
    ensures AbsorbAll(bp, frames).ch
         == if bp.ch != [] then bp.ch else if Offered(bp, frames) != [] then [Offered(bp, frames)[0]] else []
    decreases |frames|
  {
    if frames != [] {
      ChannelKeepsFirst(Absorb(bp, frames[0]), frames[1..]);
    }
  }

  function Payloads(frames: seq<Bytes>): Bytes
    requires forall f :: f in frames ==> |f| >= HEADER_SIZE
  {
    if frames == [] then [] else frames[0][HEADER_SIZE..] + Payloads(frames[1..])
  }

  ghost predicate NoneFlagged(frames: seq<Bytes>) {
    forall f :: f in frames ==> |f| >= HEADER_SIZE && f[ID_SIZE] != 1
  }

  /** Frames without the flag, whatever else stands in its place, gather their payloads and complete nothing. */
  lemma {:induction false} UnflaggedGather(bp: PendingBlob, frames: seq<Bytes>)
    requires NoneFlagged(frames)
    ensures AbsorbAll(bp, frames) == PendingBlob(bp.buf + Payloads(frames), bp.ch) && Offered(bp, frames) == []
    decreases |frames|
  {
    if frames == [] {
      assert bp.buf + [] == bp.buf;
    } else {
      UnflaggedOne(bp, frames[0]);
      hide Absorb, Completed;
      UnflaggedGather(Absorb(bp, frames[0]), frames[1..]);
      JoinedPayloads(bp.buf, frames[0][HEADER_SIZE..], Payloads(frames[1..]));
    }
  }

  lemma JoinedPayloads(a: Bytes, b: Bytes, c: Bytes)
    ensures a + b + c == a + (b + c)
  {
  }

  lemma UnflaggedOne(bp: PendingBlob, frame: Bytes)
    requires |frame| >= HEADER_SIZE && frame[ID_SIZE] != 1
    ensures Absorb(bp, frame) == PendingBlob(bp.buf + frame[HEADER_SIZE..], bp.ch) && Completed(bp, frame) == None
  {
  }

  /** A flagged frame completes what was gathered with it, if that is anything, and starts over. */
  lemma FlaggedCompletes(bp: PendingBlob, frame: Bytes)
    requires |frame| >= HEADER_SIZE && frame[ID_SIZE] == 1
    ensures var whole := bp.buf + frame[HEADER_SIZE..];
            Absorb(bp, frame).buf == [] && Offered(bp, [frame]) == if whole == [] then [] else [whole]
  {
    var bp' := Absorb(bp, frame);
    assert [frame][1..] == [] && Offered(bp', []) == [];
  }

  function Project(stream: seq<Bytes>, id: Bytes): (frames: seq<Bytes>)
    ensures forall f :: f in frames ==> ForId(f, id)
  {
    if stream == [] then []
    else (if ForId(stream[0], id) then [stream[0]] else []) + Project(stream[1..], id)
  }

  /** What a request ends up with depends on its own frames alone. */
  lemma {:induction false} RequestsAreIndependent(pending: map<Bytes, PendingBlob>, stream: seq<Bytes>, id: Bytes)
    requires id in pending
    ensures id in ReceiveAll(pending, stream)
    ensures ReceiveAll(pending, stream)[id] == AbsorbAll(pending[id], Project(stream, id))
    decreases |stream|
  {
    if stream != [] {
      RequestsAreIndependent(Receive(pending, stream[0]), stream[1..], id);
      var rest := Project(stream[1..], id);
      if ForId(stream[0], id) {
        assert ([stream[0]] + rest)[1..] == rest;
      } else {
        assert [] + rest == rest;
      }
    }
  }

  /** The frames of a blob, received in order, complete the blob at the last frame and at no other. */
  lemma {:induction false} FramesReassemble(reqID: Bytes, data: Bytes, offset: nat, bp: PendingBlob)
    requires offset <= |data| && bp == PendingBlob(data[..offset], [])
    ensures forall f :: f in Frames(reqID, data, offset) ==> |f| >= HEADER_SIZE
    ensures offset < |data| ==>
              AbsorbAll(bp, Frames(reqID, data, offset)) == PendingBlob([], [data])
              && Offered(bp, Frames(reqID, data, offset)) == [data]
    ensures forall k :: 0 <= k < |Frames(reqID, data, offset)| ==> Offered(bp, Frames(reqID, data, offset)[..k]) == []
    decreases |data| - offset
  {
    var fs := Frames(reqID, data, offset);
    if offset < |data| {
      var end := ChunkEnd(offset, |data|);
      var f, rest := Frame(reqID, data, offset), Frames(reqID, data, end);
      assert fs == [f] + rest && fs[1..] == rest;
      assert data[..offset] + data[offset..end] == data[..end];
      var bp' := Absorb(bp, f);
      if end < |data| {
        assert bp' == PendingBlob(data[..end], []);
        FramesReassemble(reqID, data, end, bp');
      } else {
        assert data[..end] == data && rest == [];
      }
      forall k | 0 <= k < |fs|
        ensures Offered(bp, fs[..k]) == []
      {
        if k > 0 {
          assert fs[..k][0] == f && fs[..k][1..] == rest[..k - 1];
        }
      }
    }
  }

  // ---- Interleaved blobs ----

  /** tags says of each frame on the channel which blob it belongs to, or that it is for no pending request. */
  function Tagged(stream: seq<Bytes>, tags: seq<Option<Bytes>>, id: Bytes): seq<Bytes>
    requires |tags| == |stream|
  {
    if stream == [] then []
    else (if tags[0] == Some(id) then [stream[0]] else []) + Tagged(stream[1..], tags[1..], id)
  }

  ghost predicate Interleaves(stream: seq<Bytes>, tags: seq<Option<Bytes>>, blobs: map<Bytes, Bytes>) {
    |tags| == |stream|
    && (forall id :: id in blobs ==> |id| == ID_SIZE && Tagged(stream, tags, id) == Frames(id, blobs[id], 0))
    && forall i :: 0 <= i < |stream| ==>
         match tags[i]
         case Some(id) => id in blobs
         case None => forall id :: id in blobs ==> !ForId(stream[i], id)
  }

  lemma {:induction false} TaggedMember(stream: seq<Bytes>, tags: seq<Option<Bytes>>, i: nat, id: Bytes)
    requires |tags| == |stream| && i < |stream| && tags[i] == Some(id)
    ensures stream[i] in Tagged(stream, tags, id)
    decreases |stream|
  {
    if i > 0 {
      TaggedMember(stream[1..], tags[1..], i - 1, id);
    }
  }

  /** Frames carry the identifier of their own blob, so the demultiplexer sorts them as they were sent. */
  lemma TagsAreHeaders(stream: seq<Bytes>, tags: seq<Option<Bytes>>, blobs: map<Bytes, Bytes>, i: nat, id: Bytes)
    requires Interleaves(stream, tags, blobs) && i < |stream| && id in blobs
    ensures ForId(stream[i], id) <==> tags[i] == Some(id)
  {
    if tags[i].Some? {
      var own := tags[i].value;
      TaggedMember(stream, tags, i, own);
      var fs := Frames(own, blobs[own], 0);
      var k :| 0 <= k < |fs| && fs[k] == stream[i];
      FrameShape(own, blobs[own], 0);
    }
  }

  lemma {:induction false} ProjectIsTagged(stream: seq<Bytes>, tags: seq<Option<Bytes>>, id: Bytes)
    requires |tags| == |stream|
    requires forall i :: 0 <= i < |stream| ==> (ForId(stream[i], id) <==> tags[i] == Some(id))
    ensures Project(stream, id) == Tagged(stream, tags, id)
    decreases |stream|
  {
    if stream != [] {
      ProjectIsTagged(stream[1..], tags[1..], id);
    }
  }

  /** However the frames of any number of blobs, and frames for nobody, are interleaved, each pending request is
      completed once, by its last frame, with exactly its own bytes; an empty blob has no frame and completes
      nothing. */
  lemma BlobsReassemble(stream: seq<Bytes>, tags: seq<Option<Bytes>>, blobs: map<Bytes, Bytes>,
                        pending: map<Bytes, PendingBlob>, id: Bytes)
    requires Interleaves(stream, tags, blobs) && id in blobs && id in pending && pending[id] == PendingBlob([], [])
    ensures id in ReceiveAll(pending, stream)
    ensures ReceiveAll(pending, stream)[id] == PendingBlob([], if blobs[id] == [] then [] else [blobs[id]])
    ensures Offered(pending[id], Project(stream, id)) == if blobs[id] == [] then [] else [blobs[id]]
    ensures Project(stream, id) == Frames(id, blobs[id], 0)
    ensures forall k :: 0 <= k < |Frames(id, blobs[id], 0)| ==> Offered(pending[id], Project(stream, id)[..k]) == []
  {
    RequestsAreIndependent(pending, stream, id);
    forall i | 0 <= i < |stream|
      ensures ForId(stream[i], id) <==> tags[i] == Some(id)
    {
      TagsAreHeaders(stream, tags, blobs, i, id);
    }
    ProjectIsTagged(stream, tags, id);
    FramesReassemble(id, blobs[id], 0, pending[id]);
  }
}
