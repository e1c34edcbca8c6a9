/** The chat screen's message objects, which receipts and unsends change in place. */
module ChatBloc {
  import opened Common
  import opened ChatReducer

  class ChatMessage {
    const id: Id
    const senderId: string
    const createdAt: int
    const isMine: bool
    var content: Option<string>
    var tick: Tick
    var deleted: bool
    var pending: bool

    constructor (m: Msg)
      ensures Value() == m
    {
      id, senderId, createdAt, isMine := m.id, m.senderId, m.createdAt, m.isMine;
      content, tick, deleted, pending := m.content, m.tick, m.deleted, m.pending;
    }

    function Value(): Msg
      reads this
    {
      Msg(id, senderId, content, createdAt, isMine, tick, deleted, pending)
    }

    /** The frame tells that this message has come this far. */
    predicate Tells(f: Frame, t: Tick) {
      match f
      case Receipt(messageId, read) => id == Server(messageId) && t == if read then Read else Delivered
      case DeliveredFrame(messageId) => id == Server(messageId) && t == Delivered
      case ReadFrame(messageId) => id == Server(messageId) && t == Read
      case _ => false
    }

    /** What a receipt or an unsend frame does to a message it names. */
    method Update(f: Frame, ghost me: string)
      requires InPlace(f)
      modifies this
      ensures Value() == OnMessage(old(Value()), f, me)
      // A receipt for this message raises the tick to what it tells and never lowers it; an
      // unsend of it leaves an empty tombstone.
      ensures tick == if Tells(f, Read) || old(tick) == Read then Read
                      else if Tells(f, Delivered) || old(tick) == Delivered then Delivered
                      else Sent
      ensures f.Unsend? && id == Server(f.id) ==> deleted && content == None
      ensures !f.Unsend? || id != Server(f.id) ==> deleted == old(deleted) && content == old(content)
      ensures pending == old(pending)
    {
      match f {
        case Receipt(messageId, read) =>
          var reported := if read then Read else Delivered;
          if id == Server(messageId) && (reported == Read || tick == Sent) {
            tick := reported;
          }
        case DeliveredFrame(messageId) =>
          if id == Server(messageId) && tick == Sent {
            tick := Delivered;
          }
        case ReadFrame(messageId) =>
          if id == Server(messageId) && (tick == Sent || tick == Delivered) {
            tick := Read;
          }
        case Unsend(messageId) =>
          if id == Server(messageId) {
            deleted, content := true, None;
          }
        case _ =>
      }
    }
  }

  predicate InPlace(f: Frame) {
    f.Receipt? || f.DeliveredFrame? || f.ReadFrame? || f.Unsend?
  }

  function Snapshot(messages: seq<ChatMessage>): seq<Msg>
    reads messages
  {
    seq(|messages|, (i: nat) requires i < |messages| reads messages => messages[i].Value())
  }

  /** Frames that leave the list alone. */
  lemma IgnoredStays(values: seq<Msg>, f: Frame, me: string, peer: string)
    requires f.Other? || f.TypingStart? || f.TypingStop? || (f.Message? && f.from != peer)
    ensures OnFrame(values, f, me, peer) == values
  {
  }

  /** What the state class compares of two lists, read when the new state is emitted. */
  predicate Differs(before: seq<ChatMessage>, after: seq<ChatMessage>)
    reads before, after
  {
    |before| != |after| || Rev(Snapshot(before)) != Rev(Snapshot(after))
  }

  /** The list is longer by an object that shows what the frame tells. */
  ghost predicate AddsMessage(f: Frame, before: seq<ChatMessage>, after: seq<ChatMessage>)
    requires f.Message?
    reads after
  {
    && |after| == |before| + 1 && after[..|before|] == before
    && after[|before|].Value() == Msg(Server(f.id), f.from, f.content, f.createdAt, false, Sent, false, false)
  }

  class ChatBloc {
    const me: string
    const peer: string
    var messages: seq<ChatMessage>
    var peerTyping: bool
    var error: Option<string>
    var refCounter: nat

    constructor (me: string, peer: string)
      ensures this.me == me && this.peer == peer && Valid() && messages == [] && !peerTyping && error == None
              && refCounter == 0
    {
      this.me, this.peer := me, peer;
      messages, peerTyping, error, refCounter := [], false, None, 0;
    }

    /** No object is listed twice, and bubbles awaiting their ack have distinct references. */
    ghost predicate Valid()
      reads this
    {
      && (forall i, j | 0 <= i < j < |messages| :: messages[i] != messages[j])
      && (forall i | 0 <= i < |messages| && messages[i].id.Ref? :: 0 < messages[i].id.n <= refCounter)
      && (forall i, j | 0 <= i < j < |messages| && messages[i].id.Ref? :: messages[i].id != messages[j].id)
    }

    /** An optimistic bubble, named by the next reference; the longer list is emitted. */
    method OnTextSent(content: string, now: int) returns (emitted: bool)
      requires Valid()
      modifies this
      ensures Valid() && refCounter == old(refCounter) + 1
      ensures Snapshot(messages) ==
                old(Snapshot(messages)) + [Msg(Ref(refCounter), me, Some(content), now, true, Sent, false, true)]
      ensures fresh(messages[|messages| - 1]) && messages[..|messages| - 1] == old(messages)
      ensures emitted
    {
      var before, failed := messages, error;
      refCounter := refCounter + 1;
      var bubble := new ChatMessage(Msg(Ref(refCounter), me, Some(content), now, true, Sent, false, true));
      messages := messages + [bubble];
      error := None;
      emitted := Differs(before, messages) || failed != error;
    }

    /** Tombstone at once; the server's unsend frame confirms it.  Like the frame, it changes
        objects that the old state lists too, and is not emitted for its own sake. */
    method OnUnsent(id: Id) returns (emitted: bool)
      requires Valid()
      modifies this`error, messages
      ensures Valid() && error == None && messages == old(messages)
      ensures emitted <==> old(error).Some?
      ensures Snapshot(messages) == seq(|messages|, (i: nat) requires i < |messages| reads this, messages =>
                var m := old(messages[i].Value()); if m.id == id then m.(deleted := true, content := None) else m)
    {
      var before, failed := messages, error;
      for i := 0 to |messages|
        invariant forall j | 0 <= j < i :: messages[j].Value() ==
                    var m := old(messages[j].Value()); if m.id == id then m.(deleted := true, content := None) else m
        invariant forall j | i <= j < |messages| :: messages[j].Value() == old(messages[j].Value())
      {
        if messages[i].id == id {
          messages[i].deleted, messages[i].content := true, None;
        }
      }
      error := None;
      emitted := Differs(before, messages) || failed != error;
    }

    /** The list is rebuilt, with a new object for the acked bubble. */
    method OnAck(ref: Option<nat>, id: string, createdAt: int)
      requires Valid()
      modifies this`messages
      ensures Valid()
      ensures Snapshot(messages) == OnFrame(old(Snapshot(messages)), Ack(ref, id, createdAt), me, peer)
      // The bubble with this reference is replaced by a new object, the user's own and no longer
      // pending; the other objects stay as they are.
      ensures |messages| == |old(messages)|
      ensures forall j | 0 <= j < |messages| && ref.Some? && old(messages)[j].id == Ref(ref.value) ::
                fresh(messages[j]) && messages[j].Value() == Msg(Server(id), me, old(messages[j].content), createdAt,
                                                                 true, Sent, false, false)
      ensures forall j | 0 <= j < |messages| && (ref.None? || old(messages)[j].id != Ref(ref.value)) ::
                messages[j] == old(messages)[j] && messages[j].Value() == old(messages[j].Value())
    {
      var updated: seq<ChatMessage> := [];
      for i := 0 to |messages|
        invariant messages == old(messages) && |updated| == i
        invariant forall j | 0 <= j < i ::
                    updated[j].Value() == OnMessage(old(messages[j].Value()), Ack(ref, id, createdAt), me)
        invariant forall j | 0 <= j < i && ref.Some? && messages[j].id == Ref(ref.value) :: fresh(updated[j])
        invariant forall j | 0 <= j < i && (ref.None? || messages[j].id != Ref(ref.value)) :: updated[j] == messages[j]
        invariant forall j, k | 0 <= j < k < i :: updated[j] != updated[k]
      {
        var m := messages[i];
        if ref.Some? && m.id == Ref(ref.value) {
          m := new ChatMessage(Msg(Server(id), me, m.content, createdAt, true, Sent, false, false));
        }
        updated := updated + [m];
      }
      messages := updated;
    }

    method UpdateAll(f: Frame)
      requires Valid() && InPlace(f)
      modifies messages
      ensures Snapshot(messages) == OnFrame(old(Snapshot(messages)), f, me, peer)
    {
      for i := 0 to |messages|
        invariant forall j | 0 <= j < i :: messages[j].Value() == OnMessage(old(messages[j].Value()), f, me)
        invariant forall j | i <= j < |messages| :: messages[j].Value() == old(messages[j].Value())
      {
        messages[i].Update(f, me);
      }
    }

    /** One frame.  `emitted` is whether the new state differs from the old one in what the
        state class compares: length, `_rev`, typing and error, read when it is emitted.

        Receipts and unsends change the message objects that the old state lists as well, so
        the two states always agree on `_rev`: the change itself is never emitted. */
    method HandleFrame(f: Frame) returns (emitted: bool)
      requires Valid()
      modifies this, messages
      ensures Valid()
      ensures Snapshot(messages) == OnFrame(old(Snapshot(messages)), f, me, peer)
      ensures InPlace(f) ==> messages == old(messages) && (emitted <==> old(error).Some?)
      ensures f.Message? && f.from == peer ==> emitted
      // A message of the peer is added at the end, as the frame tells it; others are not shown.
      ensures |messages| == |old(messages)| + if f.Message? && f.from == peer then 1 else 0
      ensures f.Message? && f.from == peer ==>
                messages[..|old(messages)|] == old(messages)
                && messages[|old(messages)|].Value() ==
                     Msg(Server(f.id), f.from, f.content, f.createdAt, false, Sent, false, false)
      ensures error == if f.Other? || ((f.Message? || f.TypingStart? || f.TypingStop?) && f.from != peer)
                       then old(error) else None
      // An ack of a pending bubble is emitted: the list it replaces keeps the old objects.
      ensures AwaitAck(old(Snapshot(messages)), f) ==> emitted
      ensures peerTyping == if f.TypingStart? && f.from == peer then true
                            else if (f.TypingStop? || f.Message?) && f.from == peer then false
                            else old(peerTyping)
    {
      if f.Other? || ((f.Message? || f.TypingStart? || f.TypingStop?) && f.from != peer) {
        IgnoredStays(Snapshot(messages), f, me, peer);
        return false;
      }
      emitted := Take(f);
    }

    /** A frame for this room: reduce, and emit. */
    method Take(f: Frame) returns (emitted: bool)
      requires Valid() && !f.Other?
      requires f.Message? || f.TypingStart? || f.TypingStop? ==> f.from == peer
      modifies this, messages
      ensures Valid()
      ensures Snapshot(messages) == OnFrame(old(Snapshot(messages)), f, me, peer)
      ensures InPlace(f) ==> messages == old(messages) && (emitted <==> old(error).Some?)
      ensures f.Message? || AwaitAck(old(Snapshot(messages)), f) ==> emitted
      ensures |messages| == |old(messages)| + (if f.Message? then 1 else 0) && error == None
      ensures f.Message? ==> AddsMessage(f, old(messages), messages)
      ensures peerTyping == if f.TypingStart? then true else if f.TypingStop? || f.Message? then false
              else old(peerTyping)
    {
      var before, typing, failed := messages, peerTyping, error;
      error := None;
      Reduce(f);
      emitted := Differs(before, messages) || typing != peerTyping || failed != error;
    }

    /** The change to the list and to the typing flag. */
    method Reduce(f: Frame)
      requires Valid() && !f.Other?
      requires f.Message? || f.TypingStart? || f.TypingStop? ==> f.from == peer
      modifies this`messages, this`peerTyping, messages
      ensures Valid()
      ensures Snapshot(messages) == OnFrame(old(Snapshot(messages)), f, me, peer)
      ensures InPlace(f) ==> messages == old(messages)
      ensures AwaitAck(old(Snapshot(messages)), f) ==> Differs(old(messages), messages)
      ensures |messages| == |old(messages)| + if f.Message? then 1 else 0
      ensures f.Message? ==> AddsMessage(f, old(messages), messages)
      ensures peerTyping == if f.TypingStart? then true else if f.TypingStop? || f.Message? then false
              else old(peerTyping)
    {
      if f.Ack? {
        ghost var values := Snapshot(messages);
        OnAck(f.ref, f.id, f.createdAt);
        if AwaitAck(values, f) {
          AckLowersRev(values, f, me, peer);
          assert Snapshot(old(messages)) == values;
        }
      } else if f.Message? {
        var m := new ChatMessage(Msg(Server(f.id), f.from, f.content, f.createdAt, false, Sent, false, false));
        messages := messages + [m];
        peerTyping := false;
      } else if f.TypingStart? || f.TypingStop? {
        peerTyping := f.TypingStart?;
        IgnoredStays(Snapshot(messages), f, me, peer);
      } else {
        UpdateAll(f);
      }
    }
  }
}
