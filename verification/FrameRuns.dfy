/** Two runs of FrameProtocol in which a bubble does not show what became of its message. */
module FrameRuns {
  import opened Common
  import opened ChatReducer
  import opened FrameProtocol

  lemma RunSnoc(steps: seq<Step>, step: Step)
    ensures Run(steps + [step]) == Next(Run(steps), step)
  {
    assert (steps + [step])[..|steps|] == steps;
  }

  /** A run from the empty state, step by step. */
  ghost predicate Leads(steps: seq<Step>, s: Sys) {
    Run(steps) == s
  }

  lemma Go(steps: seq<Step>, s: Sys, step: Step, t: Sys) returns (more: seq<Step>)
    requires Leads(steps, s) && Next(s, step) == t
    ensures more == steps + [step] && Leads(more, t)
  {
    more := steps + [step];
    RunSnoc(steps, step);
  }

  function Mine(ref: nat, text: string): Msg {
    Msg(Ref(ref), "me", Some(text), 0, true, Sent, false, true)
  }

  // ---------------------------------------------------------------- references start again

  const TWO_ROWS := map["A" := Row("me", "peer", 0, 1, Some("A"), 0), "B" := Row("me", "peer", 0, 1, Some("B"), 0)]

  /** The user sends "A" from a room, opens the room anew, and sends "B": both under reference
      1 of the same socket. */
  lemma TwoSends() returns (steps: seq<Step>, s: Sys)
    ensures Leads(steps, s) && s.streams == map[] && 0 in s.open
    ensures s.handlers == map[0 := SendAck("A"), 1 := SendAck("B")]
    ensures s.rows == TWO_ROWS
  {
    var s1 := EMPTY.(owner := map[0 := "me"], open := {0});
    var s2 := s1.(rows := map["A" := Row("me", "peer", 0, 1, Some("A"), 0)], handlers := map[0 := SendAck("A")]);
    s := s2.(rows := s2.rows["B" := Row("me", "peer", 0, 1, Some("B"), 0)],
             handlers := s2.handlers[1 := SendAck("B")]);
    steps := Go([], EMPTY, Connect(0, "me"), s1);
    steps := Go(steps, s1, Send(0, 0, "peer", 1, "A", Some("A"), 0), s2);
    steps := Go(steps, s2, Send(1, 0, "peer", 1, "B", Some("B"), 0), s);
  }

  lemma TwoAcks() returns (steps: seq<Step>)
    ensures Run(steps).rows == TWO_ROWS
    ensures Of(Run(steps).streams, 0) == [Ack(Some(1), "A", 0), Ack(Some(1), "B", 0)]
  {
    var s;
    steps, s := TwoSends();
    var t := Next(s, Advance(0));
    assert Of(t.streams, 0) == [Ack(Some(1), "A", 0)] && t.handlers[1] == SendAck("B") && t.rows == s.rows;
    steps := Go(steps, s, Advance(0), t);
    steps := Go(steps, t, Advance(1), Next(t, Advance(1)));
  }

  lemma TwoFrames(m: Msg, f: Frame, g: Frame, me: string, peer: string)
    requires !f.Message? && !g.Message?
    ensures OnFrames([m], [f, g], me, peer)[0] == OnMessage(OnMessage(m, f, me), g, me)
  {
    assert [f, g][..1] == [f] && [f][..0] == [];
    assert OnFrames([m], [f], me, peer) == OnFrame([m], f, me, peer);
  }

  /** Then the bubble sent as "B" takes the id of the row that says "A". */
  lemma WrongBubble() returns (steps: seq<Step>)
    ensures Run(steps).rows == TWO_ROWS
    ensures var m := OnFrames([Mine(1, "B")], Of(Run(steps).streams, 0), "me", "peer")[0];
            m.id == Server("A") && m.content == Some("B")
  {
    steps := TwoAcks();
    TwoFrames(Mine(1, "B"), Ack(Some(1), "A", 0), Ack(Some(1), "B", 0), "me", "peer");
  }

  // ---------------------------------------------------------------- a receipt before the ack

  /** The ack is owed, and these frames wait for the sender or have reached it. */
  predicate AckOwed(s: Sys, queue: seq<Frame>, stream: seq<Frame>) {
    && "M" in s.rows && s.rows["M"] == Row("me", "peer", 0, 1, Some("M"), 0) && 0 in s.open
    && 0 in s.owner && s.owner[0] == "me" && 0 in s.handlers && s.handlers[0] == SendAck("M")
    && Of(s.queues, 0) == queue && Of(s.streams, 0) == stream
  }

  /** The peer has the message from the history before the sender has its ack, and reads it. */
  lemma ReadEarly() returns (steps: seq<Step>, s: Sys)
    ensures Leads(steps, s) && AckOwed(s, [], [])
    ensures 1 in s.handlers && s.handlers[1] == TellSender(Receipt("M", true), "M")
  {
    var s1 := EMPTY.(owner := map[0 := "me"], open := {0});
    var s2 := s1.(owner := map[0 := "me", 1 := "peer"], open := {0, 1});
    var s3 := s2.(rows := map["M" := Row("me", "peer", 0, 1, Some("M"), 0)], handlers := map[0 := SendAck("M")]);
    var s4 := s3.(fetched := {("peer", "M")}, early := {"M"});
    s := s4.(handlers := map[0 := SendAck("M"), 1 := TellSender(Receipt("M", true), "M")]);
    steps := Go([], EMPTY, Connect(0, "me"), s1);
    steps := Go(steps, s1, Connect(1, "peer"), s2);
    steps := Go(steps, s2, Send(0, 0, "peer", 1, "M", Some("M"), 0), s3);
    steps := Go(steps, s3, Fetch("peer", "M"), s4);
    steps := Go(steps, s4, Mark(1, 1, Receipt("M", true)), s);
  }

  lemma Published(s: Sys, receipt: Frame)
    requires AckOwed(s, [], []) && 1 in s.handlers && s.handlers[1] == TellSender(receipt, "M")
    ensures AckOwed(Next(s, Advance(1)), [receipt], [])
  {}

  lemma Relayed(s: Sys, receipt: Frame)
    requires AckOwed(s, [receipt], [])
    ensures AckOwed(Next(s, Relay(0)), [], [receipt])
  {}

  lemma AckedNext(s: Sys, receipt: Frame)
    requires AckOwed(s, [], [receipt])
    ensures Of(Next(s, Advance(0)).streams, 0) == [receipt, Ack(Some(1), "M", 0)]
  {}

  lemma ReceiptFirst() returns (steps: seq<Step>)
    ensures Of(Run(steps).streams, 0) == [Receipt("M", true), Ack(Some(1), "M", 0)]
  {
    var s;
    steps, s := ReadEarly();
    var t := Next(s, Advance(1));
    var u := Next(t, Relay(0));
    Published(s, Receipt("M", true));
    Relayed(t, Receipt("M", true));
    AckedNext(u, Receipt("M", true));
    steps := Go(steps, s, Advance(1), t);
    steps := Go(steps, t, Relay(0), u);
    steps := Go(steps, u, Advance(0), Next(u, Advance(0)));
  }

  /** Then the bubble stays at "sent" although its message was reported read. */
  lemma EarlyReceiptIsLost() returns (steps: seq<Step>)
    ensures var stream := Of(Run(steps).streams, 0);
            var m := OnFrames([Mine(1, "M")], stream, "me", "peer")[0];
            m.id == Server("M") && m.tick == Sent && Joined(Sent, stream, "M") == Read
  {
    steps := ReceiptFirst();
    TwoFrames(Mine(1, "M"), Receipt("M", true), Ack(Some(1), "M", 0), "me", "peer");
    assert [Receipt("M", true), Ack(Some(1), "M", 0)][..1] == [Receipt("M", true)];
  }
}
