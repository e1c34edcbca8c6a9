/** Whom the sweep tells, with other sessions committing between its query, its removals and its
    commit. */
module SweepTells {
  import opened Common
  import opened Storage
  import opened Messages
  import opened SelfDestruct
  import opened Retention
  import opened SweepRaces

  /** Since its query the open sweep has published the frames for both parties of the messages it
      will wipe, and no others. */
  ghost predicate SessionTold(w: World, session: Session) {
    session.from <= |w.frames| && Told(w.frames[session.from..], session.read, Elements(session.wiped))
  }

  /** Both parties of a destructed message have been told. */
  ghost predicate PartiesTold(w: World, id: MsgId)
    requires id in w.rows
  {
    (w.rows[id].sender, id) in w.frames && (w.rows[id].recipient.Some? ==> (w.rows[id].recipient.value, id) in w.frames)
  }

  ghost predicate AllTold(s: Sys) {
    && (forall id | id in s.world.rows && s.world.rows[id].destructed :: PartiesTold(s.world, id))
    && (s.session.Some? ==> SessionTold(s.world, s.session.value))
  }

  lemma OtherSessionsTellNothing(w: World, step: Step)
    requires !step.Sweep?
    ensures Retention.Next(w, step).frames == w.frames
  {}

  lemma QueryTold(w: World, batch: seq<MsgId>)
    ensures SessionTold(w, Session(w.now, w.rows, batch, [], |w.frames|))
  {
    assert Elements<MsgId>([]) == {} && w.frames[|w.frames|..] == [];
  }

  /** Coming to a message that can be removed tells its parties, and adds it to what will be
      wiped; one that cannot is neither told of nor wiped. */
  lemma ProcessTold(w: World, session: Session, outage: Outage, t: World, left: Session)
    requires SweepRaces.SessionOk(w, session) && SessionTold(w, session)
    requires session.todo != [] && session.todo[0] in session.read
    requires Processed(w, session, outage) == Sys(t, Some(left))
    ensures SessionTold(t, left) && w.frames <= t.frames
  {
    var id := session.todo[0];
    assert id in session.todo;
    if !Fails(session.read[id], outage) {
      TellsOneMore(w.frames[session.from..], session.read, Elements(session.wiped), id);
      assert Elements(left.wiped) == Elements(session.wiped) + {id};
      assert t.frames[session.from..] == w.frames[session.from..] + Parties(session.read[id], id);
    }
  }

  /** A sweep that breaks off has told of the next message at most the first `sent` of the frames
      it would have told. */
  lemma BreakOffTold(w: World, session: Session, outage: Outage, sent: nat) returns (full: seq<(UserId, MsgId)>)
    requires SweepRaces.SessionOk(w, session) && SessionTold(w, session)
    requires session.todo != [] && session.todo[0] in session.read
    ensures var t := BrokenOff(w, session, outage, Some(sent)).world;
            var id := session.todo[0];
            && session.from <= |full|
            && Told(full[session.from..], session.read,
                    Elements(session.wiped) + if Raises(session.read[id], outage) then {} else {id})
            && w.frames <= t.frames <= full && |t.frames| == Min(|w.frames| + sent, |full|)
  {
    var t := Processed(w, session, outage);
    ProcessTold(w, session, outage, t.world, t.session.value);
    full := t.world.frames;
    assert Elements(t.session.value.wiped) ==
             Elements(session.wiped) + if Raises(session.read[session.todo[0]], outage) then {} else {session.todo[0]};
  }

  /** What the sweep has published about a message it will wipe. */
  lemma WipedWasTold(w: World, session: Session, id: MsgId)
    requires SessionTold(w, session) && id in session.wiped && ReadOk(w, session, id)
    ensures PartiesTold(w, id)
  {
    var told := w.frames[session.from..];
    var row := session.read[id];
    assert id in Elements(session.wiped);
    assert multiset(told)[(row.sender, id)] >= 1;
    InSuffix(w.frames, session.from, (row.sender, id));
    if row.recipient.Some? {
      assert multiset(told)[(row.recipient.value, id)] >= 1;
      InSuffix(w.frames, session.from, (row.recipient.value, id));
    }
  }

  lemma InSuffix(frames: seq<(UserId, MsgId)>, from: nat, f: (UserId, MsgId))
    requires from <= |frames| && multiset(frames[from..])[f] >= 1
    ensures f in frames
  {
    assert f in multiset(frames[from..]);
    assert f in frames[from..];
  }

  lemma StillTold(w: World, t: World, id: MsgId)
    requires id in w.rows && id in t.rows && Later(w.rows[id], t.rows[id]) && w.frames <= t.frames && PartiesTold(w, id)
    ensures PartiesTold(t, id)
  {}

  lemma CommitTold(s: Sys)
    requires SysOk(s) && s.session.Some? && AllTold(s)
    ensures AllTold(SweepRaces.Committed(s.world, s.session.value))
  {
    var w, session := s.world, s.session.value;
    var t := SweepRaces.Committed(w, session).world;
    CommitKeepsOk(s);
    forall id | id in t.rows && t.rows[id].destructed ensures PartiesTold(t, id) {
      if id in session.wiped {
        WipedWasTold(w, session, id);
      } else {
        assert w.rows[id].destructed;
      }
      StillTold(w, t, id);
    }
  }

  lemma ElsewhereTold(s: Sys, step: Step)
    requires SysOk(s) && AllTold(s) && !step.Sweep?
    ensures AllTold(SweepRaces.Next(s, Elsewhere(step)))
  {
    var t := Retention.Next(s.world, step);
    OtherSessionsTellNothing(s.world, step);
    StepKeepsInv(s.world, step);
    forall id | id in t.rows && t.rows[id].destructed ensures PartiesTold(t, id) {
      if id in s.world.rows && s.world.rows[id].destructed {
        StillTold(s.world, t, id);
      } else {
        NewlyDestructed(s.world, step, id);
      }
    }
  }

  lemma NewlyDestructed(w: World, step: Step, id: MsgId)
    requires !step.Sweep? && id in Retention.Next(w, step).rows
    requires !(id in w.rows && w.rows[id].destructed)
    ensures !Retention.Next(w, step).rows[id].destructed
  {}

  lemma MoveTold(s: Sys, move: Move)
    requires SysOk(s) && AllTold(s)
    ensures AllTold(SweepRaces.Next(s, move))
  {
    match move
    case Elsewhere(step) => if !step.Sweep? { ElsewhereTold(s, step); }
    case Query(batch) => QueryTold(s.world, batch);
    case Process(outage) =>
      if s.session.Some? && s.session.value.todo != [] && s.session.value.todo[0] in s.session.value.read {
        var t := Processed(s.world, s.session.value, outage);
        ProcessTold(s.world, s.session.value, outage, t.world, t.session.value);
        FramesGrow(s.world, t.world);
      }
    case Commit => if s.session.Some? { CommitTold(s); }
    case BreakOff(outage, sent) =>
      if s.session.Some? {
        FramesGrow(s.world, BrokenOff(s.world, s.session.value, outage, sent).world);
      }
  }

  lemma FramesGrow(w: World, t: World)
    requires t.rows == w.rows && w.frames <= t.frames
    ensures forall id | id in w.rows && PartiesTold(w, id) :: PartiesTold(t, id)
  {}

  /** Under every interleaving: an open sweep has told exactly the parties of what it will wipe,
      and the parties of every destructed message have been told of it. */
  lemma {:induction false} RacesTell(moves: seq<Move>)
    ensures AllTold(SweepRaces.Run(moves))
  {
    if moves != [] {
      var front := moves[..|moves| - 1];
      RacesTell(front);
      RacesKeepInv(front);
      MoveTold(SweepRaces.Run(front), moves[|moves| - 1]);
    }
  }
}
