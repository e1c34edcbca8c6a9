/** Whom the frames of FrameProtocol reach: the publishes of each handler, and whose sockets
    hold what. */
module FrameRouting {
  import opened Common
  import opened ChatReducer
  import opened FrameProtocol

  // ---------------------------------------------------------------- one step

  /** The frame goes to the end of the queue of every open socket of the user, and no queue
      changes otherwise. */
  ghost predicate Reaches(s: Sys, t: Sys, user: User, f: Frame) {
    && (forall sock | sock in s.owner && s.owner[sock] == user && sock in s.open ::
          Of(t.queues, sock) == Of(s.queues, sock) + [f])
    && (forall sock | !(sock in s.owner && s.owner[sock] == user && sock in s.open) ::
          Of(t.queues, sock) == Of(s.queues, sock))
    && t.streams == s.streams
  }

  /** Frames wait only for sockets that have been opened. */
  ghost predicate Queued(s: Sys) {
    forall sock | sock in s.queues :: sock in s.owner
  }

  lemma PublishReaches(s: Sys, user: User, f: Frame)
    requires Queued(s)
    ensures Reaches(s, Publish(s, user, f), user, f) && Queued(Publish(s, user, f))
  {}

  /** A text is committed as the sender's, to its addressee, with its content, and will be acked. */
  lemma SendSaves(s: Sys, h: nat, sock: Socket, to: User, ref: nat, id: string, content: Option<string>, createdAt: int)
    requires h !in s.handlers && sock in s.open && sock in s.owner && id !in s.rows
    ensures var t := Next(s, Send(h, sock, to, ref, id, content, createdAt));
            && t.rows.Keys == s.rows.Keys + {id} && (forall i | i in s.rows :: t.rows[i] == s.rows[i])
            && t.rows[id].sender == s.owner[sock] && t.rows[id].recipient == to && t.rows[id].origin == sock
            && t.rows[id].ref == ref && t.rows[id].content == content && t.rows[id].createdAt == createdAt
            && h in t.handlers && t.handlers[h] == SendAck(id)
            && t.queues == s.queues && t.streams == s.streams
  {}

  /** First the ack, to the socket the message came from and to no other ... */
  lemma AckGoesToOrigin(s: Sys, h: nat, id: string)
    requires h in s.handlers && s.handlers[h] == SendAck(id) && id in s.rows && s.rows[id].origin in s.open
    ensures var t := Next(s, Advance(h));
            && (forall sock :: Of(t.streams, sock) == Of(s.streams, sock) +
                                 if sock == s.rows[id].origin
                                 then [Ack(Some(s.rows[id].ref), id, s.rows[id].createdAt)] else [])
            && t.queues == s.queues && h in t.handlers && t.handlers[h] == PublishMessage(id)
  {}

  /** ... then the message, to every open socket of the recipient. */
  lemma MessageGoesToRecipient(s: Sys, h: nat, id: string)
    requires Queued(s) && h in s.handlers && s.handlers[h] == PublishMessage(id) && id in s.rows
    ensures var row := s.rows[id];
            Reaches(s, Next(s, Advance(h)), row.recipient, Message(row.sender, id, row.content, row.createdAt))
  {
    PublishReaches(s.(handlers := s.handlers - {h}), s.rows[id].recipient,
                   Message(s.rows[id].sender, id, s.rows[id].content, s.rows[id].createdAt));
  }

  /** A receipt of a party who has been told of the message goes to the sender's sockets as it
      was sent; of anybody else it goes nowhere. */
  lemma ReceiptGoesToSender(s: Sys, h: nat, sock: Socket, receipt: Frame, id: string)
    requires Queued(s) && h !in s.handlers && sock in s.open && sock in s.owner && IsReceiptOf(receipt, id)
    ensures var user := s.owner[sock];
            var t := Next(s, Mark(h, sock, receipt));
            if id in s.rows && user in {s.rows[id].sender, s.rows[id].recipient}
               && (WasSent(s, user, id) || (user, id) in s.fetched)
            then t.queues == s.queues && t.streams == s.streams
                 && Reaches(t, Next(t, Advance(h)), s.rows[id].sender, receipt)
            else t == s
  {
    var t := Next(s, Mark(h, sock, receipt));
    if t != s { PublishReaches(t.(handlers := t.handlers - {h}), s.rows[id].sender, receipt); }
  }

  /** An unsend is told to the recipient's sockets, then to the sender's. */
  lemma UnsendGoesToBoth(s: Sys, h: nat, id: string)
    requires Queued(s) && h in s.handlers && s.handlers[h] == TellRecipient(id) && id in s.rows
    ensures var t := Next(s, Advance(h));
            && Reaches(s, t, s.rows[id].recipient, Unsend(id))
            && Reaches(t, Next(t, Advance(h)), s.rows[id].sender, Unsend(id))
  {
    PublishReaches(s, s.rows[id].recipient, Unsend(id));
    var t := Next(s, Advance(h));
    PublishReaches(t.(handlers := t.handlers - {h}), s.rows[id].sender, Unsend(id));
  }

  /** The relay moves the frame that has waited longest to the end of the stream. */
  lemma RelayMovesFirst(s: Sys, sock: Socket)
    requires Of(s.queues, sock) != [] && sock in s.open
    ensures var t := Next(s, Relay(sock));
            && (forall k :: Of(t.queues, k) == if k == sock then Of(s.queues, k)[1..] else Of(s.queues, k))
            && (forall k :: Of(t.streams, k) == Of(s.streams, k) + if k == sock then [Of(s.queues, k)[0]] else [])
  {}

  // ---------------------------------------------------------------- whole runs

  /** Whose sockets a frame may be on: a message is the recipient's, a receipt the sender's, an
      unsend either party's, and an ack is on the very socket the message came from. */
  ghost predicate FrameFor(s: Sys, sock: Socket, f: Frame) {
    sock in s.owner &&
    match f
    case Ack(_, id, _) => id in s.rows && s.rows[id].origin == sock && s.rows[id].sender == s.owner[sock]
    case Message(_, id, _, _) => id in s.rows && s.rows[id].recipient == s.owner[sock]
    case Unsend(id) => id in s.rows && s.owner[sock] in {s.rows[id].sender, s.rows[id].recipient}
    case _ => Reports(f).Some? && var id := Reports(f).value.0; id in s.rows && s.rows[id].sender == s.owner[sock]
  }

  ghost predicate AllFor(s: Sys, sock: Socket, frames: seq<Frame>) {
    forall k | 0 <= k < |frames| :: FrameFor(s, sock, frames[k])
  }

  /** A message is its sender's, who owns the socket it came from; a handler that tells the
      sender tells of the row it names. */
  ghost predicate Sourced(s: Sys) {
    && (forall id | id in s.rows :: s.rows[id].origin in s.owner && s.owner[s.rows[id].origin] == s.rows[id].sender)
    && (forall h | h in s.handlers && s.handlers[h].TellSender? :: TellsOf(s.handlers[h].frame, s.handlers[h].id))
  }

  predicate TellsOf(f: Frame, id: string) {
    f == Unsend(id) || IsReceiptOf(f, id)
  }

  ghost predicate Routed(s: Sys) {
    && Queued(s) && Sourced(s)
    && forall sock :: AllFor(s, sock, Of(s.queues, sock)) && AllFor(s, sock, Of(s.streams, sock))
  }

  /** Rows and owners are for ever. */
  ghost predicate Keeps(s: Sys, t: Sys) {
    && (forall id | id in s.rows :: id in t.rows && t.rows[id] == s.rows[id])
    && (forall sock | sock in s.owner :: sock in t.owner && t.owner[sock] == s.owner[sock])
  }

  lemma AllForStays(s: Sys, t: Sys, sock: Socket, frames: seq<Frame>)
    requires Keeps(s, t) && AllFor(s, sock, frames)
    ensures AllFor(t, sock, frames)
  {
    forall k | 0 <= k < |frames| ensures FrameFor(t, sock, frames[k]) { assert FrameFor(s, sock, frames[k]); }
  }

  /** A step that touches no queue and no stream. */
  lemma QuietKeepsRouted(s: Sys, t: Sys)
    requires Routed(s) && Keeps(s, t) && Sourced(t) && t.queues == s.queues && t.streams == s.streams
    ensures Routed(t)
  {
    forall sock ensures AllFor(t, sock, Of(t.queues, sock)) && AllFor(t, sock, Of(t.streams, sock)) {
      AllForStays(s, t, sock, Of(s.queues, sock));
      AllForStays(s, t, sock, Of(s.streams, sock));
    }
  }

  lemma PublishKeepsRouted(s: Sys, user: User, f: Frame)
    requires Routed(s)
    requires forall sock | sock in s.owner && s.owner[sock] == user :: FrameFor(s, sock, f)
    ensures Routed(Publish(s, user, f))
  {
    var t := Publish(s, user, f);
    PublishReaches(s, user, f);
    assert Keeps(s, t);
    forall sock ensures AllFor(t, sock, Of(t.queues, sock)) && AllFor(t, sock, Of(t.streams, sock)) {
      AllForStays(s, t, sock, Of(s.queues, sock));
      AllForStays(s, t, sock, Of(s.streams, sock));
      if sock in s.owner && s.owner[sock] == user { AllForStays(s, t, sock, [f]); }
    }
  }

  lemma WriteKeepsRouted(s: Sys, sock: Socket, f: Frame)
    requires Routed(s) && FrameFor(s, sock, f)
    ensures Routed(Write(s, sock, f))
  {
    var t := Write(s, sock, f);
    forall k ensures AllFor(t, k, Of(t.queues, k)) && AllFor(t, k, Of(t.streams, k)) {
      AllForStays(s, t, k, Of(s.queues, k));
      AllForStays(s, t, k, Of(s.streams, k));
      if k == sock { AllForStays(s, t, sock, [f]); }
    }
  }

  lemma DropKeepsRouted(s: Sys, sock: Socket)
    requires Routed(s) && Of(s.queues, sock) != []
    ensures Routed(Dropped(s, sock, Of(s.queues, sock)))
  {
    var t := Dropped(s, sock, Of(s.queues, sock));
    forall k ensures AllFor(t, k, Of(t.queues, k)) && AllFor(t, k, Of(t.streams, k)) {
      AllForStays(s, t, k, Of(s.queues, k));
      AllForStays(s, t, k, Of(s.streams, k));
    }
  }

  lemma AdvanceKeepsRouted(s: Sys, h: nat)
    requires Routed(s) && h in s.handlers
    ensures Routed(Next(s, Advance(h)))
  {
    var handler := s.handlers[h];
    var left := s.(handlers := s.handlers - {h});
    QuietKeepsRouted(s, left);
    if handler.id in s.rows {
      var row := s.rows[handler.id];
      match handler
      case SendAck(id) => AckKeepsRouted(s, h, id);
      case PublishMessage(id) =>
        PublishKeepsRouted(left, row.recipient, Message(row.sender, id, row.content, row.createdAt));
      case TellSender(frame, id) => PublishKeepsRouted(left, row.sender, frame);
      case TellRecipient(id) =>
        PublishKeepsRouted(s, row.recipient, Unsend(id));
        var told := Publish(s, row.recipient, Unsend(id));
        QuietKeepsRouted(told, told.(handlers := s.handlers[h := TellSender(Unsend(id), id)]));
    }
  }

  lemma AckKeepsRouted(s: Sys, h: nat, id: string)
    requires Routed(s) && h in s.handlers && s.handlers[h] == SendAck(id) && id in s.rows
    ensures Routed(Next(s, Advance(h)))
  {
    var row := s.rows[id];
    if row.origin in s.open {
      var f := Ack(Some(row.ref), id, row.createdAt);
      WriteKeepsRouted(s, row.origin, f);
      var told := Write(s, row.origin, f);
      QuietKeepsRouted(told, told.(handlers := s.handlers[h := PublishMessage(id)]));
    } else {
      QuietKeepsRouted(s, s.(handlers := s.handlers - {h}));
    }
  }

  lemma RelayKeepsRouted(s: Sys, sock: Socket)
    requires Routed(s) && Of(s.queues, sock) != []
    ensures Routed(Write(Dropped(s, sock, Of(s.queues, sock)), sock, Of(s.queues, sock)[0]))
  {
    var f := Of(s.queues, sock)[0];
    assert FrameFor(s, sock, f);
    DropKeepsRouted(s, sock);
    WriteKeepsRouted(Dropped(s, sock, Of(s.queues, sock)), sock, f);
  }

  lemma SendKeepsRouted(s: Sys, step: Step)
    requires Routed(s) && step.Send?
    ensures Routed(Next(s, step))
  {
    QuietKeepsRouted(s, Next(s, step));
  }

  lemma MarkKeepsRouted(s: Sys, step: Step)
    requires Routed(s) && step.Mark?
    ensures Routed(Next(s, step))
  {
    QuietKeepsRouted(s, Next(s, step));
  }

  lemma RestKeepsRouted(s: Sys, step: Step)
    requires Routed(s) && (step.Connect? || step.Close? || step.Retract? || step.Fetch? || step.Crash?)
    ensures Routed(Next(s, step))
  {
    var t := Next(s, step);
    assert t == s.(owner := t.owner, open := t.open, handlers := t.handlers, fetched := t.fetched, early := t.early);
    assert Keeps(s, t);
    assert Sourced(t) by {
      forall h | h in t.handlers && t.handlers[h].TellSender? ensures TellsOf(t.handlers[h].frame, t.handlers[h].id) {
        assert h in s.handlers && t.handlers[h] == s.handlers[h];
      }
    }
    QuietKeepsRouted(s, t);
  }

  lemma StepKeepsRouted(s: Sys, step: Step)
    requires Routed(s)
    ensures Routed(Next(s, step))
  {
    match step
    case Advance(h) => if h in s.handlers { AdvanceKeepsRouted(s, h); }
    case Relay(sock) => if Of(s.queues, sock) != [] && sock in s.open { RelayKeepsRouted(s, sock); }
    case Lose(sock) => if Of(s.queues, sock) != [] { DropKeepsRouted(s, sock); }
    case Send(_, _, _, _, _, _, _) => SendKeepsRouted(s, step);
    case Mark(_, _, _) => MarkKeepsRouted(s, step);
    case _ => RestKeepsRouted(s, step);
  }

  lemma {:induction false} RunKeepsRouted(steps: seq<Step>)
    ensures Routed(Run(steps))
  {
    if steps != [] {
      RunKeepsRouted(steps[..|steps| - 1]);
      StepKeepsRouted(Run(steps[..|steps| - 1]), steps[|steps| - 1]);
    }
  }

  /** In every run: each frame on a socket is for its owner. */
  lemma FramesReachTheirUsers(steps: seq<Step>, sock: Socket, k: nat)
    requires k < |Of(Run(steps).streams, sock)|
    ensures var s := Run(steps);
            sock in s.owner &&
            match Of(s.streams, sock)[k]
            case Ack(_, id, _) => id in s.rows && s.rows[id].origin == sock && s.rows[id].sender == s.owner[sock]
            case Message(_, id, _, _) => id in s.rows && s.rows[id].recipient == s.owner[sock]
            case Unsend(id) => id in s.rows && s.owner[sock] in {s.rows[id].sender, s.rows[id].recipient}
            case f => Reports(f).Some? && Reports(f).value.0 in s.rows
                      && s.rows[Reports(f).value.0].sender == s.owner[sock]
  {
    RunKeepsRouted(steps);
    assert FrameFor(Run(steps), sock, Of(Run(steps).streams, sock)[k]);
  }
}
