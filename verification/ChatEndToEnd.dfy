/** From the committed rows to the chat screen: what every run shows of them. */
module ChatEndToEnd {
  import opened ChatReducer
  import opened ChatTimeline
  import opened FrameProtocol
  import opened FrameRouting

  /** The message tells the peer's row as it was committed, or that it was unsent. */
  ghost predicate TellsRow(m: Msg, row: Row, id: string, unsent: bool) {
    && m.id == Server(id) && m.senderId == row.sender && m.createdAt == row.createdAt && !m.isMine && !m.pending
    && (if unsent then m.deleted && m.content.None? else !m.deleted && m.content == row.content)
  }

  lemma ArrivalTells(s: Sys, sock: Socket, frames: seq<Frame>, a: nat, peer: string, m: Msg)
    requires Routed(s) && AllOk(s, frames) && AllFor(s, sock, frames)
    requires a < |frames| && FromPeer(frames[a], peer) && Shows(m, frames, a)
    ensures var id := frames[a].id;
            && id in s.rows && sock in s.owner && s.rows[id].sender == peer && s.rows[id].recipient == s.owner[sock]
            && TellsRow(m, s.rows[id], id, Unsent(frames[a + 1..], id))
  {
    assert FrameOk(s, frames[a]) && FrameFor(s, sock, frames[a]);
  }

  /** In every run, on the frames written to a socket from any moment on: the list grows by one
      message for each `message` frame of the peer, in their order.  Each tells the committed row,
      from the peer to the owner of the socket, until an unsend of its id has come. */
  lemma PeerMessagesAreRows(steps: seq<Step>, sock: Socket, p: nat, messages: seq<Msg>, peer: string)
    requires sock in Run(steps).owner && p <= |Of(Run(steps).streams, sock)|
    ensures var s := Run(steps);
            var me := s.owner[sock];
            var frames := Of(s.streams, sock)[p..];
            var arrivals := Arrivals(frames, peer);
            var after := OnFrames(messages, frames, me, peer);
            && |after| == |messages| + |arrivals|
            && (forall a: nat :: a in arrivals <==> a < |frames| && FromPeer(frames[a], peer))
            && (forall i, j | 0 <= i < j < |arrivals| :: arrivals[i] < arrivals[j])
            && forall j | 0 <= j < |arrivals| ::
                 arrivals[j] < |frames| && frames[arrivals[j]].Message? &&
                 var id := frames[arrivals[j]].id;
                 && id in s.rows && s.rows[id].sender == peer && s.rows[id].recipient == me
                 && TellsRow(after[|messages| + j], s.rows[id], id, Unsent(frames[arrivals[j] + 1..], id))
  {
    var s := Run(steps);
    var me := s.owner[sock];
    var stream := Of(s.streams, sock);
    var frames := stream[p..];
    var arrivals := Arrivals(frames, peer);
    RunKeepsInv(steps);
    RunKeepsRouted(steps);
    ArrivalsExact(frames, peer);
    AddedExactly(messages, frames, me, peer);
    SuffixOk(s, sock, p);
    var after := OnFrames(messages, frames, me, peer);
    forall j | 0 <= j < |arrivals|
      ensures arrivals[j] < |frames| && frames[arrivals[j]].Message?
      ensures var id := frames[arrivals[j]].id;
              && id in s.rows && s.rows[id].sender == peer && s.rows[id].recipient == me
              && TellsRow(after[|messages| + j], s.rows[id], id, Unsent(frames[arrivals[j] + 1..], id))
    {
      assert arrivals[j] in arrivals;
      ArrivalTells(s, sock, frames, arrivals[j], peer, after[|messages| + j]);
    }
  }

  lemma SuffixOk(s: Sys, sock: Socket, p: nat)
    requires StreamsOk(s) && Routed(s) && p <= |Of(s.streams, sock)|
    ensures AllOk(s, Of(s.streams, sock)[p..]) && AllFor(s, sock, Of(s.streams, sock)[p..])
  {
    var stream := Of(s.streams, sock);
    assert AllOk(s, stream) && AllFor(s, sock, stream);
  }

  /** Once acked, a bubble is the user's own, keeps what was typed until it is unsent, and has
      the time of the row it was acked with, which the user has sent from this socket. */
  lemma AckedBubbleIsOwn(steps: seq<Step>, sock: Socket, p: nat, q: nat, ref: nat, id: string, messages: seq<Msg>,
                         me: string, peer: string, k: nat)
    requires FirstAckIs(Of(Run(steps).streams, sock), p, q, ref, id)
    requires k < |messages| && messages[k].id == Ref(ref)
    ensures var s := Run(steps);
            var stream := Of(s.streams, sock);
            var m := OnFrames(messages, stream[p..], me, peer)[k];
            && id in s.rows && sock in s.owner && s.rows[id].sender == s.owner[sock] && s.rows[id].origin == sock
            && m.id == Server(id) && m.senderId == me && m.createdAt == s.rows[id].createdAt && m.isMine && !m.pending
            && (if Unsent(stream[q + 1..], id) then m.deleted && m.content.None?
                else !m.deleted && m.content == messages[k].content)
  {
    var s := Run(steps);
    var stream := Of(s.streams, sock);
    RunKeepsInv(steps);
    RunKeepsRouted(steps);
    assert FrameOk(s, stream[q]) && FrameFor(s, sock, stream[q]);
    BubbleFollows(messages, stream[p..], me, peer, k, ref, id, q - p);
    assert stream[p..][q - p + 1..] == stream[q + 1..];
  }
}
