/** What any list of frames makes of each message of the chat screen: listed, pending, or added
    by the frames. */
module ChatTimeline {
  import opened Common
  import opened ChatReducer

  predicate NoAckBetween(stream: seq<Frame>, p: nat, j: nat, ref: nat) {
    forall i | p <= i < j && i < |stream| && stream[i].Ack? :: stream[i].ref != Some(ref)
  }

  /** The frame at `q` is the first ack with this reference from `p` on. */
  predicate FirstAckIs(stream: seq<Frame>, p: nat, q: nat, ref: nat, id: string) {
    p <= q < |stream| && IsAckOf(stream[q], id) && stream[q].ref == Some(ref) && NoAckBetween(stream, p, q, ref)
  }

  lemma {:induction false} FirstAckNone(stream: seq<Frame>, ref: nat)
    ensures FirstAck(stream, ref).None? <==> NoAckBetween(stream, 0, |stream|, ref)
  {
    if stream != [] {
      var front := stream[..|stream| - 1];
      FirstAckNone(front, ref);
      assert forall i | 0 <= i < |front| :: front[i] == stream[i];
    }
  }

  lemma {:induction false} FirstAckSome(stream: seq<Frame>, ref: nat, q: nat, id: string)
    requires FirstAckIs(stream, 0, q, ref, id)
    ensures FirstAck(stream, ref) == Some(id)
  {
    var front := stream[..|stream| - 1];
    if q < |front| {
      assert forall i | 0 <= i < |front| :: front[i] == stream[i];
      FirstAckSome(front, ref, q, id);
    } else {
      assert NoAckBetween(front, 0, |front|, ref);
      FirstAckNone(front, ref);
    }
  }

  lemma {:induction false} OnFramesJoin(messages: seq<Msg>, a: seq<Frame>, b: seq<Frame>, me: string, peer: string)
    ensures OnFrames(messages, a + b, me, peer) == OnFrames(OnFrames(messages, a, me, peer), b, me, peer)
  {
    if b == [] {
      assert a + b == a;
    } else {
      var front := b[..|b| - 1];
      OnFramesJoin(messages, a, front, me, peer);
      assert (a + b)[..|a + b| - 1] == a + front;
    }
  }

  lemma {:induction false} FirstAckAt(stream: seq<Frame>, ref: nat) returns (q: nat)
    requires FirstAck(stream, ref).Some?
    ensures FirstAckIs(stream, 0, q, ref, FirstAck(stream, ref).value)
  {
    var n := |stream| - 1;
    assert forall i | 0 <= i < n :: stream[..n][i] == stream[i];
    if FirstAck(stream[..n], ref).Some? {
      q := FirstAckAt(stream[..n], ref);
    } else {
      FirstAckNone(stream[..n], ref);
      q := n;
    }
  }

  // ---------------------------------------------------------------- stored messages

  predicate Unsent(frames: seq<Frame>, id: string) {
    exists k :: 0 <= k < |frames| && frames[k] == Unsend(id)
  }

  lemma UnsentSnoc(front: seq<Frame>, last: Frame, id: string)
    ensures Unsent(front + [last], id) <==> Unsent(front, id) || last == Unsend(id)
  {
    var frames := front + [last];
    if Unsent(front, id) {
      var k :| 0 <= k < |front| && front[k] == Unsend(id);
      assert frames[k] == Unsend(id);
    }
    if last == Unsend(id) { assert frames[|front|] == Unsend(id); }
  }

  /** The message is what it was, except that its tick is the join of the receipts for it, and
      it is an empty tombstone once an unsend of its id has come. */
  ghost predicate IsNow(before: Msg, frames: seq<Frame>, after: Msg)
    requires before.id.Server?
  {
    && after.id == before.id && after.senderId == before.senderId && after.createdAt == before.createdAt
    && after.isMine == before.isMine && after.pending == before.pending
    && after.tick == Joined(before.tick, frames, before.id.id)
    && (if Unsent(frames, before.id.id) then after.deleted && after.content.None?
        else after.deleted == before.deleted && after.content == before.content)
  }

  lemma OneFrameOn(before: Msg, front: seq<Frame>, m: Msg, last: Frame, me: string)
    requires before.id.Server? && IsNow(before, front, m)
    ensures IsNow(before, front + [last], OnMessage(m, last, me))
  {
    UnsentSnoc(front, last, before.id.id);
    OneFrameJoins(m, last, me);
    assert (front + [last])[..|front|] == front;
  }

  /** Any list of frames, any stored message. */
  lemma {:induction false} StoredExactly(messages: seq<Msg>, frames: seq<Frame>, me: string, peer: string, k: nat)
    requires k < |messages| && messages[k].id.Server?
    ensures IsNow(messages[k], frames, OnFrames(messages, frames, me, peer)[k])
  {
    if frames != [] {
      var front, last := frames[..|frames| - 1], frames[|frames| - 1];
      StoredExactly(messages, front, me, peer, k);
      OnFrameAt(OnFrames(messages, front, me, peer), last, me, peer, k);
      OneFrameOn(messages[k], front, OnFrames(messages, front, me, peer)[k], last, me);
      assert frames == front + [last];
    }
  }

  // ---------------------------------------------------------------- pending bubbles

  /** Until an ack names it, a pending bubble is left alone. */
  lemma {:induction false} PendingStays(messages: seq<Msg>, frames: seq<Frame>, me: string, peer: string, k: nat,
                                        ref: nat)
    requires k < |messages| && messages[k].id == Ref(ref) && NoAckBetween(frames, 0, |frames|, ref)
    ensures OnFrames(messages, frames, me, peer)[k] == messages[k]
  {
    if frames != [] {
      var front := frames[..|frames| - 1];
      assert forall i | 0 <= i < |front| :: front[i] == frames[i];
      PendingStays(messages, front, me, peer, k, ref);
      OnFrameAt(OnFrames(messages, front, me, peer), frames[|frames| - 1], me, peer, k);
    }
  }

  /** The bubble takes the id and the time of the first ack with its reference, is the user's
      own and no longer pending, and keeps its content; from then on it is a stored message. */
  lemma BubbleFollows(messages: seq<Msg>, frames: seq<Frame>, me: string, peer: string, k: nat, ref: nat, id: string,
                      q: nat)
    requires k < |messages| && messages[k].id == Ref(ref) && FirstAckIs(frames, 0, q, ref, id)
    ensures IsNow(Msg(Server(id), me, messages[k].content, frames[q].createdAt, true, Sent, false, false),
                  frames[q + 1..], OnFrames(messages, frames, me, peer)[k])
  {
    var before := OnFrames(messages, frames[..q], me, peer);
    PendingStays(messages, frames[..q], me, peer, k, ref);
    var acked := OnFrame(before, frames[q], me, peer);
    OnFrameAt(before, frames[q], me, peer, k);
    assert frames[..q + 1][..q] == frames[..q];
    StoredExactly(acked, frames[q + 1..], me, peer, k);
    OnFramesJoin(messages, frames[..q + 1], frames[q + 1..], me, peer);
    assert frames[..q + 1] + frames[q + 1..] == frames;
  }

  // ---------------------------------------------------------------- added messages

  predicate FromPeer(f: Frame, peer: string) {
    f.Message? && f.from == peer
  }

  /** Where the peer's messages are among the frames. */
  function Arrivals(frames: seq<Frame>, peer: string): seq<nat> {
    if frames == [] then []
    else
      var n := |frames| - 1;
      Arrivals(frames[..n], peer) + if FromPeer(frames[n], peer) then [n] else []
  }

  /** All of them, each once, in order. */
  lemma {:induction false} ArrivalsExact(frames: seq<Frame>, peer: string)
    ensures forall p: nat :: p in Arrivals(frames, peer) <==> p < |frames| && FromPeer(frames[p], peer)
    ensures forall i, j | 0 <= i < j < |Arrivals(frames, peer)| :: Arrivals(frames, peer)[i] < Arrivals(frames, peer)[j]
  {
    if frames != [] {
      var n := |frames| - 1;
      ArrivalsExact(frames[..n], peer);
      assert forall p | 0 <= p < n :: frames[..n][p] == frames[p];
      var before := Arrivals(frames[..n], peer);
      forall i | 0 <= i < |before| ensures before[i] < n { assert before[i] in before; }
    }
  }

  /** The bubble shows what the frame at `p` says, as the frames behind it leave it. */
  ghost predicate Shows(m: Msg, frames: seq<Frame>, p: nat) {
    && p < |frames| && frames[p].Message?
    && var f := frames[p];
       IsNow(Msg(Server(f.id), f.from, f.content, f.createdAt, false, Sent, false, false), frames[p + 1..], m)
  }

  lemma ShowsStill(m: Msg, front: seq<Frame>, last: Frame, p: nat, me: string)
    requires Shows(m, front, p)
    ensures Shows(OnMessage(m, last, me), front + [last], p)
  {
    var f := front[p];
    OneFrameOn(Msg(Server(f.id), f.from, f.content, f.createdAt, false, Sent, false, false), front[p + 1..], m, last,
               me);
    assert (front + [last])[p + 1..] == front[p + 1..] + [last];
  }

  ghost predicate Added(messages: seq<Msg>, frames: seq<Frame>, peer: string, after: seq<Msg>) {
    && |after| == |messages| + |Arrivals(frames, peer)|
    && forall j | 0 <= j < |Arrivals(frames, peer)| ::
         Shows(after[|messages| + j], frames, Arrivals(frames, peer)[j])
  }

  /** The list grows by one message for each frame with a message of the peer, in the order of
      the frames, and by nothing else. */
  lemma {:induction false} AddedExactly(messages: seq<Msg>, frames: seq<Frame>, me: string, peer: string)
    ensures Added(messages, frames, peer, OnFrames(messages, frames, me, peer))
  {
    if frames != [] {
      var front, last := frames[..|frames| - 1], frames[|frames| - 1];
      AddedExactly(messages, front, me, peer);
      AddedByOne(messages, front, last, me, peer, OnFrames(messages, front, me, peer));
      assert frames == front + [last];
    }
  }

  lemma AddedByOne(messages: seq<Msg>, front: seq<Frame>, last: Frame, me: string, peer: string, before: seq<Msg>)
    requires Added(messages, front, peer, before)
    ensures Added(messages, front + [last], peer, OnFrame(before, last, me, peer))
  {
    var frames, n := front + [last], |front|;
    var after := OnFrame(before, last, me, peer);
    var arrivals := Arrivals(front, peer);
    assert frames[..n] == front;
    forall j | 0 <= j < |Arrivals(frames, peer)|
      ensures |messages| + j < |after| && Shows(after[|messages| + j], frames, Arrivals(frames, peer)[j])
    {
      if j < |arrivals| {
        OnFrameAt(before, last, me, peer, |messages| + j);
        ShowsStill(before[|messages| + j], front, last, arrivals[j], me);
      } else {
        assert frames[n + 1..] == [];
      }
    }
  }
}
