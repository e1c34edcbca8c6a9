/** Frames between server and sockets: senders, relays and receipt handlers of any replicas,
    interleaved, with users who learn message ids from frames or from the history. */
module FrameProtocol {
  import opened Common
  import opened ChatReducer
  import opened ChatTimeline

  type User = string
  type Socket = nat

  /** A committed row, with the socket and client reference it was sent under. */
  datatype Row = Row(sender: User, recipient: User, origin: Socket, ref: nat, content: Option<string>, createdAt: int)

  /** A handler's next step: ack the sender, publish to the recipient, or publish a receipt
      or an unsend to the sender or to both parties. */
  datatype Handler =
    | SendAck(id: string)
    | PublishMessage(id: string)
    | TellSender(frame: Frame, id: string)
    | TellRecipient(id: string)

  /** `owner` names every socket ever opened; the open ones are subscribed to their owner's
      channel, whose frames wait in `queues` until the relay writes them to `streams`, or are
      lost.  `fetched` is what the history has told to whom.  `early` logs the messages it told
      before they were acked; no step reads it. */
  datatype Sys = Sys(rows: map<string, Row>, owner: map<Socket, User>, open: set<Socket>,
                     queues: map<Socket, seq<Frame>>, streams: map<Socket, seq<Frame>>, handlers: map<nat, Handler>,
                     fetched: set<(User, string)>, early: set<string>)

  datatype Step =
    | Connect(sock: Socket, user: User)
    | Close(sock: Socket)
    | Send(h: nat, sock: Socket, to: User, ref: nat, id: string, content: Option<string>, createdAt: int)
    | Fetch(user: User, id: string)
    | Mark(h: nat, sock: Socket, receipt: Frame)
    | Retract(h: nat, id: string)
    | Advance(h: nat)
    | Crash(h: nat)
    | Relay(sock: Socket)
    | Lose(sock: Socket)

  const EMPTY := Sys(map[], map[], {}, map[], map[], map[], {}, {})

  function Of(m: map<Socket, seq<Frame>>, sock: Socket): seq<Frame> {
    if sock in m then m[sock] else []
  }

  predicate IsMessage(f: Frame, id: string) {
    f.Message? && f.id == id
  }

  /** Some socket of the user has been sent the message, or its ack. */
  ghost predicate WasSent(s: Sys, user: User, id: string) {
    exists sock, k :: sock in s.owner && s.owner[sock] == user && 0 <= k < |Of(s.streams, sock)|
                      && (IsMessage(Of(s.streams, sock)[k], id) || IsAckOf(Of(s.streams, sock)[k], id))
  }

  ghost predicate HasAck(stream: seq<Frame>, id: string) {
    exists k :: 0 <= k < |stream| && IsAckOf(stream[k], id)
  }

  /** The row is committed and its ack is on the stream it was sent from. */
  ghost predicate Acked(s: Sys, id: string) {
    id in s.rows && HasAck(Of(s.streams, s.rows[id].origin), id)
  }

  /** A publish reaches the open sockets of the user. */
  function Publish(s: Sys, user: User, f: Frame): Sys {
    s.(queues := map sock | sock in s.owner ::
                   if s.owner[sock] == user && sock in s.open then Of(s.queues, sock) + [f] else Of(s.queues, sock))
  }

  function Dropped(s: Sys, sock: Socket, queue: seq<Frame>): Sys
    requires queue != []
  {
    s.(queues := s.queues[sock := queue[1..]])
  }

  function Write(s: Sys, sock: Socket, f: Frame): Sys {
    s.(streams := s.streams[sock := Of(s.streams, sock) + [f]])
  }

  ghost function Next(s: Sys, step: Step): Sys {
    match step
    case Connect(sock, user) =>
      if sock in s.owner then s else s.(owner := s.owner[sock := user], open := s.open + {sock})
    case Close(sock) => s.(open := s.open - {sock})
    case Send(h, sock, to, ref, id, content, createdAt) =>
      if h in s.handlers || sock !in s.open || sock !in s.owner || id in s.rows then s
      else s.(rows := s.rows[id := Row(s.owner[sock], to, sock, ref, content, createdAt)],
              handlers := s.handlers[h := SendAck(id)])
    case Fetch(user, id) =>
      if id !in s.rows || user !in {s.rows[id].sender, s.rows[id].recipient} then s
      else s.(fetched := s.fetched + {(user, id)}, early := if Acked(s, id) then s.early else s.early + {id})
    case Mark(h, sock, receipt) =>
      if h in s.handlers || sock !in s.open || sock !in s.owner || Reports(receipt).None? then s
      else
        var id := Reports(receipt).value.0;
        if (!WasSent(s, s.owner[sock], id) && (s.owner[sock], id) !in s.fetched) || id !in s.rows
           || s.owner[sock] !in {s.rows[id].sender, s.rows[id].recipient} then s
        else s.(handlers := s.handlers[h := TellSender(receipt, id)])
    case Retract(h, id) =>
      if h in s.handlers || id !in s.rows then s else s.(handlers := s.handlers[h := TellRecipient(id)])
    case Advance(h) => if h in s.handlers then Call(s, h, s.handlers[h]) else s
    case Crash(h) => s.(handlers := s.handlers - {h})
    case Relay(sock) =>
      var queue := Of(s.queues, sock);
      if queue == [] || sock !in s.open then s
      else Write(Dropped(s, sock, queue), sock, queue[0])
    case Lose(sock) =>
      var queue := Of(s.queues, sock);
      if queue == [] then s else Dropped(s, sock, queue)
  }

  function Call(s: Sys, h: nat, handler: Handler): Sys {
    var left := s.(handlers := s.handlers - {h});
    if handler.id !in s.rows then left
    else
      var row := s.rows[handler.id];
      match handler
      case SendAck(id) =>
        if row.origin !in s.open then left
        else Write(s, row.origin,
                   Ack(Some(row.ref), id, row.createdAt)).(handlers := s.handlers[h := PublishMessage(id)])
      case PublishMessage(id) => Publish(left, row.recipient, Message(row.sender, id, row.content, row.createdAt))
      case TellSender(frame, id) => Publish(left, row.sender, frame)
      case TellRecipient(id) =>
        Publish(s, row.recipient, Unsend(id)).(handlers := s.handlers[h := TellSender(Unsend(id), id)])
  }

  ghost function Run(steps: seq<Step>): Sys {
    if steps == [] then EMPTY else Next(Run(steps[..|steps| - 1]), steps[|steps| - 1])
  }

  // ---------------------------------------------------------------- invariant

  /** Acked, or told by the history before it was. */
  ghost predicate Known(s: Sys, id: string) {
    id in s.rows && (id in s.early || Acked(s, id))
  }

  /** What a frame may say: an ack or a message names its committed row; a message only after
      the ack, and a receipt too, unless the history told of the row before. */
  ghost predicate FrameOk(s: Sys, f: Frame) {
    match f
    case Ack(ref, id, createdAt) => id in s.rows && ref == Some(s.rows[id].ref) && createdAt == s.rows[id].createdAt
    case Message(from, id, content, createdAt) =>
      Acked(s, id) && s.rows[id].sender == from && s.rows[id].content == content && s.rows[id].createdAt == createdAt
    case _ => Reports(f).Some? ==> Known(s, Reports(f).value.0)
  }

  ghost predicate AllOk(s: Sys, frames: seq<Frame>) {
    forall k | 0 <= k < |frames| :: FrameOk(s, frames[k])
  }

  /** On the stream a message was sent from, its ack comes before any receipt for it, unless the
      history told of it early. */
  ghost predicate AckFirst(s: Sys, sock: Socket) {
    var stream := Of(s.streams, sock);
    forall k, id | 0 <= k < |stream| && IsReceiptOf(stream[k], id) && id in s.rows && s.rows[id].origin == sock
                   && id !in s.early ::
      HasAck(stream[..k], id)
  }

  ghost predicate HandlerOk(s: Sys, handler: Handler) {
    && handler.id in s.rows
    && match handler
       case SendAck(id) => forall sock, k | 0 <= k < |Of(s.streams, sock)| :: !IsAckOf(Of(s.streams, sock)[k], id)
       case PublishMessage(id) => Acked(s, id)
       case TellSender(frame, id) => FrameOk(s, frame) && (Reports(frame).Some? || frame.Unsend?)
       case TellRecipient(id) => true
  }

  /** An ack is only ever written to the socket the message came from, and only once. */
  ghost predicate AcksUnique(s: Sys) {
    && (forall sock, k, id | 0 <= k < |Of(s.streams, sock)| && IsAckOf(Of(s.streams, sock)[k], id) && id in s.rows ::
          s.rows[id].origin == sock)
    && (forall sock, j, k, id | 0 <= j < k < |Of(s.streams, sock)| && IsAckOf(Of(s.streams, sock)[j], id) ::
          !IsAckOf(Of(s.streams, sock)[k], id))
    && (forall a, b | a in s.handlers && b in s.handlers && a != b
                      && s.handlers[a].SendAck? && s.handlers[b].SendAck? ::
          s.handlers[a].id != s.handlers[b].id)
  }

  ghost predicate QueuesOk(s: Sys) {
    forall sock ::
      AllOk(s, Of(s.queues, sock)) && forall k | 0 <= k < |Of(s.queues, sock)| :: !Of(s.queues, sock)[k].Ack?
  }

  ghost predicate StreamsOk(s: Sys) {
    forall sock :: AllOk(s, Of(s.streams, sock)) && AckFirst(s, sock)
  }

  ghost predicate HandlersOk(s: Sys) {
    forall h | h in s.handlers :: HandlerOk(s, s.handlers[h])
  }

  ghost predicate FetchedOk(s: Sys) {
    forall told | told in s.fetched :: Known(s, told.1)
  }

  ghost predicate Inv(s: Sys) {
    QueuesOk(s) && StreamsOk(s) && HandlersOk(s) && AcksUnique(s) && FetchedOk(s)
  }

  /** Rows and streams only grow. */
  ghost predicate Grows(s: Sys, t: Sys) {
    && s.early <= t.early
    && (forall id | id in s.rows :: id in t.rows && t.rows[id] == s.rows[id])
    && (forall sock ::
          |Of(s.streams, sock)| <= |Of(t.streams, sock)|
          && Of(t.streams, sock)[..|Of(s.streams, sock)|] == Of(s.streams, sock))
  }

  lemma FrameStays(s: Sys, t: Sys, f: Frame)
    requires Grows(s, t) && FrameOk(s, f)
    ensures FrameOk(t, f)
  {}

  lemma AllStay(s: Sys, t: Sys, frames: seq<Frame>)
    requires Grows(s, t) && AllOk(s, frames)
    ensures AllOk(t, frames)
  {}

  lemma FetchedStay(s: Sys, t: Sys)
    requires Grows(s, t) && FetchedOk(s) && t.fetched == s.fetched
    ensures FetchedOk(t)
  {}

  /** A step that only starts, moves or drops handlers. */
  lemma HandlersOnly(s: Sys, t: Sys)
    requires Inv(s) && t == s.(owner := t.owner, open := t.open, handlers := t.handlers)
    requires forall h | h in t.handlers ::
               (h in s.handlers && t.handlers[h] == s.handlers[h])
               || (HandlerOk(s, t.handlers[h]) && !t.handlers[h].SendAck?)
    ensures Inv(t)
  {}

  lemma HandlerStays(s: Sys, t: Sys, handler: Handler)
    requires Grows(s, t) && HandlerOk(s, handler)
    requires handler.SendAck? ==> t.streams == s.streams
    ensures HandlerOk(t, handler)
  {}

  lemma PublishInv(s: Sys, user: User, f: Frame)
    requires Inv(s) && FrameOk(s, f) && !f.Ack?
    ensures Inv(Publish(s, user, f))
  {
    var t := Publish(s, user, f);
    assert Grows(s, t);
    forall sock
      ensures AllOk(t, Of(t.queues, sock)) && forall k | 0 <= k < |Of(t.queues, sock)| :: !Of(t.queues, sock)[k].Ack? {
      AllStay(s, t, Of(s.queues, sock));
      FrameStays(s, t, f);
    }
    forall sock ensures AllOk(t, Of(t.streams, sock)) && AckFirst(t, sock) {
      AllStay(s, t, Of(s.streams, sock));
      assert AckFirst(s, sock);
    }
    forall h | h in t.handlers ensures HandlerOk(t, t.handlers[h]) { HandlerStays(s, t, s.handlers[h]); }
    FetchedStay(s, t);
  }

  /** One more frame on one stream. */
  lemma WriteStreams(s: Sys, sock: Socket, f: Frame)
    requires StreamsOk(s) && FrameOk(s, f)
    ensures Grows(s, Write(s, sock, f)) && StreamsOk(Write(s, sock, f))
  {
    var t := Write(s, sock, f);
    assert Grows(s, t);
    forall k ensures AllOk(t, Of(t.streams, k)) && AckFirst(t, k) {
      AllStay(s, t, Of(s.streams, k));
      FrameStays(s, t, f);
      assert AckFirst(s, k);
      var before, after := Of(s.streams, k), Of(t.streams, k);
      forall j, id | 0 <= j < |after| && IsReceiptOf(after[j], id) && id in t.rows && t.rows[id].origin == k
                     && id !in t.early
        ensures HasAck(after[..j], id)
      {
        if j < |before| {
          assert after[..j] == before[..j] && after[j] == before[j];
        } else {
          assert after[..j] == before;
        }
      }
    }
  }

  lemma WriteQueues(s: Sys, sock: Socket, f: Frame)
    requires QueuesOk(s) && Grows(s, Write(s, sock, f))
    ensures QueuesOk(Write(s, sock, f))
  {}

  lemma WriteKeepsAcks(s: Sys, sock: Socket, f: Frame)
    requires AcksUnique(s) && !f.Ack?
    ensures AcksUnique(Write(s, sock, f))
  {
    var t := Write(s, sock, f);
    forall k ensures Of(t.streams, k) == if k == sock then Of(s.streams, k) + [f] else Of(s.streams, k) {}
  }

  lemma WriteKeepsHandlers(s: Sys, sock: Socket, f: Frame)
    requires HandlersOk(s) && !f.Ack? && Grows(s, Write(s, sock, f))
    ensures HandlersOk(Write(s, sock, f))
  {}

  /** The relay writes anything but acks. */
  lemma WriteInv(s: Sys, sock: Socket, f: Frame)
    requires Inv(s) && FrameOk(s, f) && !f.Ack?
    ensures Inv(Write(s, sock, f))
  {
    WriteStreams(s, sock, f);
    WriteQueues(s, sock, f);
    WriteKeepsAcks(s, sock, f);
    WriteKeepsHandlers(s, sock, f);
    FetchedStay(s, Write(s, sock, f));
  }

  lemma LoseInv(s: Sys, sock: Socket)
    requires Inv(s) && Of(s.queues, sock) != []
    ensures Inv(Dropped(s, sock, Of(s.queues, sock))) && Grows(s, Dropped(s, sock, Of(s.queues, sock)))
  {
    var u := Dropped(s, sock, Of(s.queues, sock));
    assert Grows(s, u);
    forall k ensures AllOk(u, Of(u.queues, k)) && AllOk(u, Of(u.streams, k)) && AckFirst(u, k)
                     && forall j | 0 <= j < |Of(u.queues, k)| :: !Of(u.queues, k)[j].Ack? {
      AllStay(s, u, Of(s.queues, k));
      AllStay(s, u, Of(s.streams, k));
      assert AckFirst(s, k);
    }
    forall h | h in u.handlers ensures HandlerOk(u, u.handlers[h]) { HandlerStays(s, u, s.handlers[h]); }
    FetchedStay(s, u);
  }

  lemma RelayInv(s: Sys, sock: Socket)
    requires Inv(s) && Of(s.queues, sock) != [] && sock in s.open
    ensures Inv(Next(s, Relay(sock)))
  {
    var queue := Of(s.queues, sock);
    LoseInv(s, sock);
    assert FrameOk(s, queue[0]);
    FrameStays(s, Dropped(s, sock, queue), queue[0]);
    WriteInv(Dropped(s, sock, queue), sock, queue[0]);
  }

  /** Writing the ack that a handler alone still owes keeps acks unique. */
  lemma AckStaysUnique(s: Sys, h: nat, t: Sys)
    requires AcksUnique(s) && h in s.handlers && s.handlers[h].SendAck? && HandlerOk(s, s.handlers[h])
    requires var id := s.handlers[h].id;
             var row := s.rows[id];
             t == Write(s, row.origin,
                        Ack(Some(row.ref), id, row.createdAt)).(handlers := s.handlers[h := PublishMessage(id)])
    ensures AcksUnique(t)
  {
    var id := s.handlers[h].id;
    var origin := s.rows[id].origin;
    var f := Ack(Some(s.rows[id].ref), id, s.rows[id].createdAt);
    forall sock
      ensures Of(t.streams, sock) == if sock == origin then Of(s.streams, sock) + [f] else Of(s.streams, sock) {}
  }

  lemma AckKeepsHandlers(s: Sys, h: nat, t: Sys)
    requires HandlersOk(s) && AcksUnique(s) && h in s.handlers && s.handlers[h].SendAck?
    requires var id := s.handlers[h].id;
             id in s.rows && var row := s.rows[id];
             t == Write(s, row.origin,
                        Ack(Some(row.ref), id, row.createdAt)).(handlers := s.handlers[h := PublishMessage(id)])
    requires Grows(s, t)
    ensures HandlersOk(t)
  {
    var id := s.handlers[h].id;
    var origin := s.rows[id].origin;
    assert IsAckOf(Of(t.streams, origin)[|Of(s.streams, origin)|], id);
    forall g | g in t.handlers ensures HandlerOk(t, t.handlers[g]) {
      if g != h {
        assert HandlerOk(s, s.handlers[g]);
        if !s.handlers[g].SendAck? { HandlerStays(s, t, s.handlers[g]); }
      }
    }
  }

  lemma AckInv(s: Sys, h: nat)
    requires Inv(s) && h in s.handlers && s.handlers[h].SendAck?
    ensures Inv(Next(s, Advance(h)))
  {
    var id := s.handlers[h].id;
    assert HandlerOk(s, s.handlers[h]);
    var row := s.rows[id];
    var t := Next(s, Advance(h));
    if row.origin !in s.open {
      HandlersOnly(s, t);
    } else {
      var f := Ack(Some(row.ref), id, row.createdAt);
      WriteStreams(s, row.origin, f);
      WriteQueues(s, row.origin, f);
      CarryFrames(Write(s, row.origin, f), t);
      assert Grows(s, t);
      AckStaysUnique(s, h, t);
      AckKeepsHandlers(s, h, t);
      FetchedStay(s, t);
    }
  }

  lemma CarryFrames(s: Sys, t: Sys)
    requires QueuesOk(s) && StreamsOk(s) && t == s.(handlers := t.handlers)
    ensures QueuesOk(t) && StreamsOk(t)
  {}

  lemma SendInv(s: Sys, step: Step)
    requires Inv(s) && step.Send?
    ensures Inv(Next(s, step))
  {
    var t := Next(s, step);
    if t != s {
      assert Grows(s, t);
      FetchedStay(s, t);
      forall k ensures AllOk(t, Of(t.queues, k)) && AllOk(t, Of(t.streams, k)) && AckFirst(t, k) {
        AllStay(s, t, Of(s.queues, k));
        AllStay(s, t, Of(s.streams, k));
        NoEarlyFrame(s, k, step.id);
        assert AckFirst(s, k);
      }
      forall g | g in t.handlers ensures HandlerOk(t, t.handlers[g]) {
        if g != step.h {
          HandlerStays(s, t, s.handlers[g]);
        } else {
          forall sock, k | 0 <= k < |Of(t.streams, sock)|
            ensures !IsAckOf(Of(t.streams, sock)[k], step.id) { NoEarlyFrame(s, sock, step.id); }
        }
      }
      assert forall g | g in s.handlers :: HandlerOk(s, s.handlers[g]);
      forall sock, k, id | 0 <= k < |Of(t.streams, sock)| && IsAckOf(Of(t.streams, sock)[k], id) && id in t.rows
        ensures t.rows[id].origin == sock {
        NoEarlyFrame(s, sock, step.id);
      }
    }
  }

  /** Nothing on a stream is about a message not saved yet. */
  lemma NoEarlyFrame(s: Sys, sock: Socket, id: string)
    requires StreamsOk(s) && id !in s.rows
    ensures forall k | 0 <= k < |Of(s.streams, sock)| ::
              !IsAckOf(Of(s.streams, sock)[k], id) && !IsReceiptOf(Of(s.streams, sock)[k], id)
  {}

  /** Whoever was sent an id has it from the ack, or from a message that followed the ack. */
  lemma SentIsAcked(s: Sys, user: User, id: string)
    requires StreamsOk(s) && AcksUnique(s) && WasSent(s, user, id)
    ensures Acked(s, id)
  {}

  lemma FetchInv(s: Sys, user: User, id: string)
    requires Inv(s)
    ensures Inv(Next(s, Fetch(user, id)))
  {
    var t := Next(s, Fetch(user, id));
    if t != s {
      assert Grows(s, t);
      forall k ensures AllOk(t, Of(t.queues, k)) && AllOk(t, Of(t.streams, k)) && AckFirst(t, k) {
        AllStay(s, t, Of(s.queues, k));
        AllStay(s, t, Of(s.streams, k));
        assert AckFirst(s, k);
      }
      forall h | h in t.handlers ensures HandlerOk(t, t.handlers[h]) { HandlerStays(s, t, s.handlers[h]); }
      forall told | told in t.fetched ensures Known(t, told.1) {
        assert told in s.fetched ==> Known(s, told.1);
      }
    }
  }

  /** A handler that finishes by publishing one frame. */
  lemma LastPublishInv(s: Sys, h: nat, user: User, f: Frame)
    requires Inv(s) && FrameOk(s, f) && !f.Ack?
    ensures Inv(Publish(s.(handlers := s.handlers - {h}), user, f))
  {
    var left := s.(handlers := s.handlers - {h});
    HandlersOnly(s, left);
    FrameStays(s, left, f);
    PublishInv(left, user, f);
  }

  lemma UnsendInv(s: Sys, h: nat, user: User, id: string)
    requires Inv(s) && id in s.rows
    ensures Inv(Publish(s, user, Unsend(id)).(handlers := s.handlers[h := TellSender(Unsend(id), id)]))
  {
    var t := Publish(s, user, Unsend(id));
    PublishInv(s, user, Unsend(id));
    HandlersOnly(t, t.(handlers := s.handlers[h := TellSender(Unsend(id), id)]));
  }

  lemma AdvanceInv(s: Sys, h: nat)
    requires Inv(s) && h in s.handlers && !s.handlers[h].SendAck?
    ensures Inv(Next(s, Advance(h)))
  {
    var handler := s.handlers[h];
    assert HandlerOk(s, handler);
    var row := s.rows[handler.id];
    match handler
    case PublishMessage(id) => LastPublishInv(s, h, row.recipient, Message(row.sender, id, row.content, row.createdAt));
    case TellSender(frame, id) => LastPublishInv(s, h, row.sender, frame);
    case TellRecipient(id) => UnsendInv(s, h, row.recipient, id);
  }

  lemma StepKeepsInv(s: Sys, step: Step)
    requires Inv(s)
    ensures Inv(Next(s, step))
  {
    match step
    case Send(_, _, _, _, _, _, _) => SendInv(s, step);
    case Relay(sock) => if Of(s.queues, sock) != [] && sock in s.open { RelayInv(s, sock); }
    case Lose(sock) => if Of(s.queues, sock) != [] { LoseInv(s, sock); }
    case Advance(h) =>
      if h in s.handlers {
        if s.handlers[h].SendAck? { AckInv(s, h); } else { AdvanceInv(s, h); }
      }
    case Fetch(user, id) => FetchInv(s, user, id);
    case Mark(h, sock, receipt) => MarkInv(s, h, sock, receipt);
    case _ => HandlersOnly(s, Next(s, step));
  }

  lemma MarkInv(s: Sys, h: nat, sock: Socket, receipt: Frame)
    requires Inv(s)
    ensures Inv(Next(s, Mark(h, sock, receipt)))
  {
    var t := Next(s, Mark(h, sock, receipt));
    if t != s {
      var user, id := s.owner[sock], Reports(receipt).value.0;
      if (user, id) !in s.fetched { SentIsAcked(s, user, id); }
      HandlersOnly(s, t);
    }
  }

  lemma {:induction false} RunKeepsInv(steps: seq<Step>)
    ensures Inv(Run(steps))
  {
    if steps != [] {
      RunKeepsInv(steps[..|steps| - 1]);
      StepKeepsInv(Run(steps[..|steps| - 1]), steps[|steps| - 1]);
    }
  }

  // ---------------------------------------------------------------- what the client sees

  /** Every ack and message frame on any stream names a committed row and tells its content. */
  lemma FramesAreCommitted(steps: seq<Step>, sock: Socket, k: nat)
    requires k < |Of(Run(steps).streams, sock)|
    ensures var s := Run(steps);
            match Of(s.streams, sock)[k]
            case Ack(ref, id, createdAt) =>
              id in s.rows && s.rows[id].origin == sock && ref == Some(s.rows[id].ref)
              && createdAt == s.rows[id].createdAt
            case Message(from, id, content, createdAt) =>
              id in s.rows && s.rows[id].sender == from && s.rows[id].content == content
              && s.rows[id].createdAt == createdAt
            case _ => true
  {
    RunKeepsInv(steps);
    assert FrameOk(Run(steps), Of(Run(steps).streams, sock)[k]);
  }

  /** On the stream of the sending socket the ack comes before any receipt for the message,
      unless the history told of the message before it was acked. */
  lemma AckBeforeReceipt(steps: seq<Step>, id: string, k: nat)
    requires id in Run(steps).rows && id !in Run(steps).early
    requires var stream := Of(Run(steps).streams, Run(steps).rows[id].origin);
             k < |stream| && IsReceiptOf(stream[k], id)
    ensures HasAck(Of(Run(steps).streams, Run(steps).rows[id].origin)[..k], id)
  {
    RunKeepsInv(steps);
    assert AckFirst(Run(steps), Run(steps).rows[id].origin);
  }

  // ---------------------------------------------------------------- the bubble

  lemma ListedBubbleFollows(messages: seq<Msg>, stream: seq<Frame>, me: string, peer: string, k: nat, ref: nat,
                            id: string, p: nat, q: nat)
    requires k < |messages| && messages[k].id == Ref(ref) && FirstAckIs(stream, p, q, ref, id)
    ensures var m := OnFrames(messages, stream[p..], me, peer)[k];
            m.id == Server(id) && m.tick == Joined(Sent, stream[q + 1..], id)
  {
    BubbleFollows(messages, stream[p..], me, peer, k, ref, id, q - p);
    assert stream[p..][q - p + 1..] == stream[q + 1..];
  }

  lemma {:induction false} NothingReported(stream: seq<Frame>, id: string)
    requires forall k | 0 <= k < |stream| :: !IsReceiptOf(stream[k], id)
    ensures Joined(Sent, stream, id) == Sent
  {
    if stream != [] { NothingReported(stream[..|stream| - 1], id); }
  }

  /** Receipts before and after a position join to all. */
  lemma {:induction false} JoinedApart(front: seq<Frame>, later: seq<Frame>, id: string)
    ensures Joined(Sent, front + later, id) == Join(Joined(Sent, front, id), Joined(Sent, later, id))
  {
    if later == [] {
      assert front + later == front;
    } else {
      var n := |later| - 1;
      JoinedApart(front, later[..n], id);
      assert (front + later)[..|front + later| - 1] == front + later[..n];
    }
  }

  lemma AckSplits(stream: seq<Frame>, q: nat, id: string)
    requires q < |stream| && IsAckOf(stream[q], id)
    ensures Joined(Sent, stream, id) == Join(Joined(Sent, stream[..q], id), Joined(Sent, stream[q + 1..], id))
  {
    JoinedApart(stream[..q + 1], stream[q + 1..], id);
    assert stream[..q + 1] + stream[q + 1..] == stream;
    assert stream[..q + 1][..q] == stream[..q];
  }

  /** No receipt for the message precedes its ack. */
  lemma NoneBeforeAck(s: Sys, sock: Socket, q: nat, id: string)
    requires StreamsOk(s) && AcksUnique(s) && q < |Of(s.streams, sock)| && IsAckOf(Of(s.streams, sock)[q], id)
    requires id !in s.early
    ensures Joined(Sent, Of(s.streams, sock)[..q], id) == Sent
  {
    var stream := Of(s.streams, sock);
    assert FrameOk(s, stream[q]) && AckFirst(s, sock);
    forall k | 0 <= k < q ensures !IsReceiptOf(stream[..q][k], id) && !HasAck(stream[..k], id) {}
    NothingReported(stream[..q], id);
  }

  /** End to end: take any run, and a bubble listed when `p` frames had been written to the
      socket (a later room of the client reuses references of earlier ones).  Once it has been
      acked, at `q`, its tick is the join of ALL receipts for its id on that socket's stream if
      and only if none before the ack reports more than those after it do: the ack's rebuild
      erases what came before.  And nothing did, unless the history told of the message before
      it was acked. */
  lemma ReceiptsKeptExactly(steps: seq<Step>, sock: Socket, p: nat, q: nat, ref: nat, id: string, messages: seq<Msg>,
                            me: string, peer: string, k: nat)
    requires FirstAckIs(Of(Run(steps).streams, sock), p, q, ref, id)
    requires k < |messages| && messages[k].id == Ref(ref)
    ensures id in Run(steps).rows && Run(steps).rows[id].origin == sock
    ensures var stream := Of(Run(steps).streams, sock);
            var m := OnFrames(messages, stream[p..], me, peer)[k];
            && m.id == Server(id)
            && (m.tick == Joined(Sent, stream, id) <==>
                Index(Joined(Sent, stream[..q], id)) <= Index(Joined(Sent, stream[q + 1..], id)))
            && (id !in Run(steps).early ==> m.tick == Joined(Sent, stream, id))
  {
    RunKeepsInv(steps);
    var stream := Of(Run(steps).streams, sock);
    assert FrameOk(Run(steps), stream[q]);
    ListedBubbleFollows(messages, stream, me, peer, k, ref, id, p, q);
    AckSplits(stream, q, id);
    if id !in Run(steps).early { NoneBeforeAck(Run(steps), sock, q, id); }
  }

  /** The bubble takes its own row's id if and only if, from its listing on, no other ack with
      its reference reaches the socket before its own. */
  lemma OwnIdExactly(steps: seq<Step>, sock: Socket, p: nat, id: string, messages: seq<Msg>, me: string, peer: string,
                     k: nat)
    requires id in Run(steps).rows && Run(steps).rows[id].origin == sock && p <= |Of(Run(steps).streams, sock)|
    requires k < |messages| && messages[k].id == Ref(Run(steps).rows[id].ref)
    ensures var stream := Of(Run(steps).streams, sock);
            var ref := Run(steps).rows[id].ref;
            OnFrames(messages, stream[p..], me, peer)[k].id == Server(id) <==>
              exists q: nat :: FirstAckIs(stream, p, q, ref, id)
  {
    RunKeepsInv(steps);
    var s := Run(steps);
    var stream := Of(s.streams, sock);
    var ref := s.rows[id].ref;
    BubbleNamed(messages, stream[p..], me, peer, k, ref);
    if q: nat :| FirstAckIs(stream, p, q, ref, id) {
      FirstAckSome(stream[p..], ref, q - p, id);
    }
    if FirstAck(stream[p..], ref) == Some(id) {
      var q := FirstAckAt(stream[p..], ref);
      assert FirstAckIs(stream, p, p + q, ref, id);
    }
  }
}
