/** The chat screen's message list as a function of the frames it receives. */
module ChatReducer {
  import opened Common

  datatype Tick = Sent | Delivered | Read

  /** An optimistic bubble is named by the client's counter, a stored message by its row id. */
  datatype Id = Ref(n: nat) | Server(id: string)

  datatype Msg = Msg(id: Id, senderId: string, content: Option<string>, createdAt: int, isMine: bool,
                     tick: Tick, deleted: bool, pending: bool)

  datatype Frame =
    | Ack(ref: Option<nat>, id: string, createdAt: int)
    | Message(from: string, id: string, content: Option<string>, createdAt: int)
    | Receipt(id: string, read: bool)
    | DeliveredFrame(id: string)
    | ReadFrame(id: string)
    | TypingStart(from: string)
    | TypingStop(from: string)
    | Unsend(id: string)
    | Other

  function Index(t: Tick): nat {
    match t
    case Sent => 0
    case Delivered => 1
    case Read => 2
  }

  /** The message id and tick a receipt of any of the three kinds reports. */
  function Reports(f: Frame): Option<(string, Tick)> {
    match f
    case Receipt(id, read) => Some((id, if read then Read else Delivered))
    case DeliveredFrame(id) => Some((id, Delivered))
    case ReadFrame(id) => Some((id, Read))
    case _ => None
  }

  predicate IsAckOf(f: Frame, id: string) {
    f.Ack? && f.id == id
  }

  predicate IsReceiptOf(f: Frame, id: string) {
    Reports(f).Some? && Reports(f).value.0 == id
  }

  /** The message id that the first ack with this reference names. */
  function FirstAck(stream: seq<Frame>, ref: nat): Option<string> {
    if stream == [] then None
    else
      var before, last := FirstAck(stream[..|stream| - 1], ref), stream[|stream| - 1];
      if before.Some? then before
      else if last.Ack? && last.ref == Some(ref) then Some(last.id) else None
  }

  /** What one frame does to one message already in the list. */
  function OnMessage(m: Msg, f: Frame, me: string): Msg {
    match f
    case Ack(ref, id, createdAt) =>
      if ref.Some? && m.id == Ref(ref.value) then Msg(Server(id), me, m.content, createdAt, true, Sent, false, false)
      else m
    case Receipt(id, read) =>
      if m.id == Server(id) && (read || m.tick == Sent) then m.(tick := if read then Read else Delivered) else m
    case DeliveredFrame(id) => if m.id == Server(id) && m.tick == Sent then m.(tick := Delivered) else m
    case ReadFrame(id) => if m.id == Server(id) && (m.tick == Sent || m.tick == Delivered) then m.(tick := Read) else m
    case Unsend(id) => if m.id == Server(id) then m.(deleted := true, content := None) else m
    case _ => m
  }

  /** The list after one frame in the room with `peer`. */
  function OnFrame(messages: seq<Msg>, f: Frame, me: string, peer: string): (r: seq<Msg>)
    ensures |messages| <= |r|
  {
    if f.Message? then
      if f.from == peer then messages + [Msg(Server(f.id), f.from, f.content, f.createdAt, false, Sent, false, false)]
      else messages
    else seq(|messages|, (i: nat) requires i < |messages| => OnMessage(messages[i], f, me))
  }

  function OnFrames(messages: seq<Msg>, frames: seq<Frame>, me: string, peer: string): (r: seq<Msg>)
    ensures |messages| <= |r|
  {
    if frames == [] then messages
    else OnFrame(OnFrames(messages, frames[..|frames| - 1], me, peer), frames[|frames| - 1], me, peer)
  }

  /** A frame acts on each listed message by itself. */
  lemma OnFrameAt(messages: seq<Msg>, f: Frame, me: string, peer: string, k: nat)
    requires k < |messages|
    ensures OnFrame(messages, f, me, peer)[k] == OnMessage(messages[k], f, me)
  {}

  // ---------------------------------------------------------------- receipts are a join

  function Join(a: Tick, b: Tick): Tick {
    if Index(a) < Index(b) then b else a
  }

  function Joined(start: Tick, frames: seq<Frame>, id: string): Tick {
    if frames == [] then start
    else
      var before := Joined(start, frames[..|frames| - 1], id);
      var report := Reports(frames[|frames| - 1]);
      if report.Some? && report.value.0 == id then Join(before, report.value.1) else before
  }

  ghost predicate Reported(frames: seq<Frame>, id: string, t: Tick) {
    exists f :: f in frames && Reports(f) == Some((id, t))
  }

  /** Joined is the maximum of the start and of the ticks reported: it bounds them all and is
      one of them.  Order and repetition cannot matter. */
  lemma {:induction false} JoinedIsMax(start: Tick, frames: seq<Frame>, id: string)
    ensures Index(start) <= Index(Joined(start, frames, id))
    ensures forall t :: Reported(frames, id, t) ==> Index(t) <= Index(Joined(start, frames, id))
    ensures Joined(start, frames, id) == start || Reported(frames, id, Joined(start, frames, id))
  {
    if frames != [] {
      var front, last := frames[..|frames| - 1], frames[|frames| - 1];
      JoinedIsMax(start, front, id);
      assert frames == front + [last];
      forall t | Reported(frames, id, t) ensures Index(t) <= Index(Joined(start, frames, id)) {
        var f :| f in frames && Reports(f) == Some((id, t));
        assert f in front ==> Reported(front, id, t);
      }
      var j := Joined(start, frames, id);
      if j != start {
        if j == Joined(start, front, id) {
          assert Reported(front, id, j);
          var f :| f in front && Reports(f) == Some((id, j));
          assert f in frames;
        } else {
          assert last in frames;
        }
      }
    }
  }

  lemma OrderDoesNotMatter(start: Tick, fs: seq<Frame>, gs: seq<Frame>, id: string)
    requires forall t :: Reported(fs, id, t) <==> Reported(gs, id, t)
    ensures Joined(start, fs, id) == Joined(start, gs, id)
  {
    JoinedIsMax(start, fs, id);
    JoinedIsMax(start, gs, id);
  }

  lemma OneFrameJoins(m: Msg, f: Frame, me: string)
    requires m.id.Server?
    ensures var after := OnMessage(m, f, me);
            && after.id == m.id
            && after.tick == if Reports(f).Some? && Reports(f).value.0 == m.id.id then Join(m.tick, Reports(f).value.1)
               else m.tick
  {}

  /** The tick of a stored message after any frames is the join of its tick with every receipt
      for it; the message keeps its place and its id. */
  lemma {:induction false} TickIsJoin(messages: seq<Msg>, frames: seq<Frame>, me: string, peer: string, k: nat)
    requires k < |messages| && messages[k].id.Server?
    ensures var m := OnFrames(messages, frames, me, peer)[k];
            m.id == messages[k].id && m.tick == Joined(messages[k].tick, frames, messages[k].id.id)
  {
    if frames != [] {
      var front, last := frames[..|frames| - 1], frames[|frames| - 1];
      var before := OnFrames(messages, front, me, peer);
      TickIsJoin(messages, front, me, peer, k);
      OnFrameAt(before, last, me, peer, k);
      OneFrameJoins(before[k], last, me);
    }
  }

  // ---------------------------------------------------------------- unsend

  /** A receipt and an unsend commute. */
  lemma UnsendCommutes(m: Msg, receipt: Frame, id: string, me: string)
    requires Reports(receipt).Some?
    ensures OnMessage(OnMessage(m, Unsend(id), me), receipt, me) == OnMessage(OnMessage(m, receipt, me), Unsend(id), me)
  {}

  /** A tombstone has no content. */
  ghost predicate Clean(messages: seq<Msg>) {
    forall i | 0 <= i < |messages| && messages[i].deleted :: messages[i].content.None?
  }

  /** No frame ever undoes the tombstone of a stored message. */
  lemma {:induction false} TombstoneStays(messages: seq<Msg>, frames: seq<Frame>, me: string, peer: string, k: nat)
    requires k < |messages| && messages[k].id.Server? && messages[k].deleted && messages[k].content.None?
    ensures var m := OnFrames(messages, frames, me, peer)[k];
            m.id == messages[k].id && m.deleted && m.content.None?
  {
    if frames != [] {
      TombstoneStays(messages, frames[..|frames| - 1], me, peer, k);
      OnFrameAt(OnFrames(messages, frames[..|frames| - 1], me, peer), frames[|frames| - 1], me, peer, k);
    }
  }

  /** The ack rebuilds the bubble: a tombstone put on it before the ack is lost. */
  lemma AckForgetsTombstone(m: Msg, ref: nat, id: string, createdAt: int, me: string)
    requires m.id == Ref(ref) && m.deleted
    ensures var after := OnMessage(m, Ack(Some(ref), id, createdAt), me);
            after.id == Server(id) && !after.deleted && after.tick == Sent && !after.pending
            && after.content == m.content
  {
  }

  /** After any frames, the bubble has the id that the first ack of its reference names. */
  lemma {:induction false} BubbleNamed(messages: seq<Msg>, frames: seq<Frame>, me: string, peer: string, k: nat,
                                       ref: nat)
    requires k < |messages| && messages[k].id == Ref(ref)
    ensures OnFrames(messages, frames, me, peer)[k].id ==
            if FirstAck(frames, ref).Some? then Server(FirstAck(frames, ref).value) else Ref(ref)
  {
    if frames != [] {
      var front := frames[..|frames| - 1];
      BubbleNamed(messages, front, me, peer, k, ref);
      OnFrameAt(OnFrames(messages, front, me, peer), frames[|frames| - 1], me, peer, k);
    }
  }

  /** An unsend of the acked id, after the ack. */
  predicate UnsentAfterAck(frames: seq<Frame>, ref: nat) {
    exists j :: 0 <= j < |frames| && frames[j].Unsend? && FirstAck(frames[..j], ref) == Some(frames[j].id)
  }

  lemma UnsentAfterAckSnoc(frames: seq<Frame>, ref: nat)
    requires frames != []
    ensures var front, last := frames[..|frames| - 1], frames[|frames| - 1];
            UnsentAfterAck(frames, ref) <==>
              UnsentAfterAck(front, ref) || (last.Unsend? && FirstAck(front, ref) == Some(last.id))
  {
    var n := |frames| - 1;
    var front := frames[..n];
    assert forall j | 0 <= j < n :: front[..j] == frames[..j] && front[j] == frames[j];
    if UnsentAfterAck(front, ref) {
      var j :| 0 <= j < n && front[j].Unsend? && FirstAck(front[..j], ref) == Some(front[j].id);
      assert frames[j].Unsend? && FirstAck(frames[..j], ref) == Some(frames[j].id);
    }
    if UnsentAfterAck(frames, ref) {
      var j :| 0 <= j < |frames| && frames[j].Unsend? && FirstAck(frames[..j], ref) == Some(frames[j].id);
      assert j < n ==> front[j].Unsend? && FirstAck(front[..j], ref) == Some(front[j].id);
    }
  }

  /** A bubble still pending is a tombstone after any frames if and only if it was one and no
      ack has named it, or an unsend of its acked id has followed the ack.  Its content, once
      gone, stays gone: forgetting the tombstone leaves an empty bubble. */
  lemma {:induction false} TombstoneExactly(messages: seq<Msg>, frames: seq<Frame>, me: string, peer: string, k: nat,
                                            ref: nat)
    requires k < |messages| && messages[k].id == Ref(ref)
    ensures var m := OnFrames(messages, frames, me, peer)[k];
            && (m.deleted <==> (messages[k].deleted && FirstAck(frames, ref).None?) || UnsentAfterAck(frames, ref))
            && (messages[k].content.None? ==> m.content.None?)
  {
    if frames != [] {
      var front, last := frames[..|frames| - 1], frames[|frames| - 1];
      TombstoneExactly(messages, front, me, peer, k, ref);
      BubbleNamed(messages, front, me, peer, k, ref);
      OnFrameAt(OnFrames(messages, front, me, peer), last, me, peer, k);
      UnsentAfterAckSnoc(frames, ref);
      if FirstAck(front, ref).None? { NeverAcked(front, ref); }
    }
  }

  lemma {:induction false} NeverAcked(frames: seq<Frame>, ref: nat)
    requires FirstAck(frames, ref).None?
    ensures !UnsentAfterAck(frames, ref)
  {
    forall j | 0 <= j < |frames| ensures FirstAck(frames[..j], ref).None? { FirstAckPrefix(frames, ref, j); }
  }

  lemma {:induction false} FirstAckPrefix(frames: seq<Frame>, ref: nat, j: nat)
    requires j <= |frames| && FirstAck(frames, ref).None?
    ensures FirstAck(frames[..j], ref).None?
  {
    if j == |frames| {
      assert frames[..j] == frames;
    } else {
      FirstAckPrefix(frames[..|frames| - 1], ref, j);
      assert frames[..|frames| - 1][..j] == frames[..j];
    }
  }

  // ---------------------------------------------------------------- the revision number

  function Weight(m: Msg): nat {
    Index(m.tick) + (if m.deleted then 100 else 0) + (if m.pending then 1000 else 0)
  }

  /** `_rev`: the fold over the list. */
  function Rev(messages: seq<Msg>): nat {
    if messages == [] then 0 else Rev(messages[..|messages| - 1]) + Weight(messages[|messages| - 1])
  }

  lemma {:induction false} RevMono(a: seq<Msg>, b: seq<Msg>)
    requires |a| == |b| && forall i | 0 <= i < |a| :: a[i] == b[i] || Weight(a[i]) < Weight(b[i])
    ensures a == b || Rev(a) < Rev(b)
  {
    if a != [] {
      var n := |a| - 1;
      RevMono(a[..n], b[..n]);
      assert a == a[..n] + [a[n]] && b == b[..n] + [b[n]];
    }
  }

  lemma OnMessageWeighs(m: Msg, f: Frame, me: string)
    requires !f.Ack? && (m.deleted ==> m.content.None?)
    ensures OnMessage(m, f, me) == m || Weight(m) < Weight(OnMessage(m, f, me))
  {}

  /** Over value snapshots, every frame except an ack that changes the list raises `_rev` or
      the length. */
  lemma RevRises(messages: seq<Msg>, f: Frame, me: string, peer: string)
    requires Clean(messages) && !f.Ack?
    ensures var after := OnFrame(messages, f, me, peer);
            && Clean(after)
            && (after == messages || |messages| < |after| || Rev(messages) < Rev(after))
  {
    var after := OnFrame(messages, f, me, peer);
    if !f.Message? {
      forall i | 0 <= i < |messages| ensures messages[i] == after[i] || Weight(messages[i]) < Weight(after[i]) {
        OnMessageWeighs(messages[i], f, me);
      }
      RevMono(messages, after);
    }
  }

  /** The bubbles the ack names are pending, and there is one. */
  predicate AwaitAck(messages: seq<Msg>, f: Frame) {
    && f.Ack? && f.ref.Some?
    && (exists i :: 0 <= i < |messages| && messages[i].id == Ref(f.ref.value))
    && forall i | 0 <= i < |messages| && messages[i].id == Ref(f.ref.value) :: messages[i].pending
  }

  /** An ack that renames a pending bubble lowers `_rev`, so it is noticed too. */
  lemma AckLowersRev(messages: seq<Msg>, f: Frame, me: string, peer: string)
    requires AwaitAck(messages, f)
    ensures Rev(OnFrame(messages, f, me, peer)) < Rev(messages)
  {
    var after := OnFrame(messages, f, me, peer);
    var i :| 0 <= i < |messages| && messages[i].id == Ref(f.ref.value);
    assert after[i].id != messages[i].id;
    RevMono(after, messages);
  }

  /** How many of the frames change message `k`. */
  function Effective(messages: seq<Msg>, frames: seq<Frame>, me: string, peer: string, k: nat): nat
    requires k < |messages|
  {
    if frames == [] then 0
    else
      var front := frames[..|frames| - 1];
      var before := OnFrames(messages, front, me, peer);
      Effective(messages, front, me, peer, k) +
        if OnFrame(before, frames[|frames| - 1], me, peer)[k] != before[k] then 1 else 0
  }

  function Progress(m: Msg): nat {
    Index(m.tick) + if m.deleted then 1 else 0
  }

  lemma OneFrameProgress(m: Msg, f: Frame, me: string)
    requires m.id.Server? && (m.deleted ==> m.content.None?)
    ensures var after := OnMessage(m, f, me);
            && after.id.Server? && (after.deleted ==> after.content.None?)
            && (after == m || Progress(m) < Progress(after))
  {}

  /** At most three frames ever change a stored message: two ticks and one tombstone. */
  lemma {:induction false} ThreeEffectiveFrames(messages: seq<Msg>, frames: seq<Frame>, me: string, peer: string,
                                                k: nat)
    requires k < |messages| && messages[k].id.Server? && (messages[k].deleted ==> messages[k].content.None?)
    ensures var m := OnFrames(messages, frames, me, peer)[k];
            && m.id.Server? && (m.deleted ==> m.content.None?)
            && Effective(messages, frames, me, peer, k) <= Progress(m) - Progress(messages[k]) <= 3
  {
    if frames != [] {
      var front, last := frames[..|frames| - 1], frames[|frames| - 1];
      var before := OnFrames(messages, front, me, peer);
      ThreeEffectiveFrames(messages, front, me, peer, k);
      OnFrameAt(before, last, me, peer, k);
      OneFrameProgress(before[k], last, me);
    }
  }
}
