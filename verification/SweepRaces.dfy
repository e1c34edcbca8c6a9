/** The sweep among other sessions: saves, receipts and unsends may commit between the sweep's
    query, each of its removals, and its commit. */
module SweepRaces {
  import opened Common
  import opened Storage
  import opened Messages
  import opened SelfDestruct
  import opened Retention
  import opened Orphans

  /** An open sweep: its time, the rows as the query returned them, what is left of the batch,
      the messages it will wipe, and how many frames had been published before. */
  datatype Session = Session(now: int, read: map<MsgId, Row>, todo: seq<MsgId>, wiped: seq<MsgId>, from: nat)

  datatype Sys = Sys(world: World, session: Option<Session>)

  /** `Elsewhere` is a step of another session or of the clock. */
  datatype Move =
    | Elsewhere(step: Step)
    | Query(batch: seq<MsgId>)
    | Process(outage: Outage)
    | Commit
    | BreakOff(outage: Outage, sent: Option<nat>)

  const START := Sys(EMPTY, None)

  function AuditsOf(wiped: seq<MsgId>): seq<Audit> {
    seq(|wiped|, (i: nat) requires i < |wiped| => Audit(wiped[i], false))
  }

  /** The UPDATE sets the wiped columns of the row as it is by now. */
  function Merged(rows: map<MsgId, Row>, wiped: seq<MsgId>, now: int): map<MsgId, Row> {
    map id | id in rows :: if id in wiped then WipedRow(rows[id], now) else rows[id]
  }

  /** The sweep acts on the row it has read. */
  function Removed(objects: map<Key, Bytes>, row: Row, outage: Outage): map<Key, Bytes> {
    if Media(row).Some? && (Media(row).value !in outage.raises || Media(row).value in outage.lost)
    then objects - {Media(row).value} else objects
  }

  ghost function Next(s: Sys, move: Move): Sys {
    match move
    case Elsewhere(step) => if step.Sweep? then s else s.(world := Retention.Next(s.world, step))
    case Query(batch) =>
      if s.session.Some? || !IsBatch(s.world.rows, s.world.now, batch) then s
      else s.(session := Some(Session(s.world.now, s.world.rows, batch, [], |s.world.frames|)))
    case Process(outage) =>
      if s.session.None? || s.session.value.todo == [] || s.session.value.todo[0] !in s.session.value.read then s
      else Processed(s.world, s.session.value, outage)
    case Commit =>
      if s.session.None? || s.session.value.todo != [] then s else Committed(s.world, s.session.value)
    case BreakOff(outage, sent) =>
      if s.session.None? then s else BrokenOff(s.world, s.session.value, outage, sent)
  }

  function Processed(w: World, session: Session, outage: Outage): Sys
    requires session.todo != [] && session.todo[0] in session.read
  {
    var id := session.todo[0];
    var row := session.read[id];
    var left := session.(todo := session.todo[1..]);
    var objects := Removed(w.objects, row, outage);
    if Fails(row, outage) then Sys(w.(objects := objects), Some(left))
    else Sys(w.(objects := objects, frames := w.frames + Parties(row, id)), Some(left.(wiped := session.wiped + [id])))
  }

  function Committed(w: World, session: Session): Sys {
    Sys(w.(rows := Merged(w.rows, session.wiped, session.now), audits := w.audits + AuditsOf(session.wiped)), None)
  }

  /** An exception rolls the sweep back; if it comes from a publish of the next message, that
      message's object may be gone and some of its frames are out. */
  function BrokenOff(w: World, session: Session, outage: Outage, sent: Option<nat>): Sys {
    if sent.None? || session.todo == [] || session.todo[0] !in session.read then Sys(w, None)
    else
      var id := session.todo[0];
      var row := session.read[id];
      var parties := Parties(row, id);
      Sys(w.(objects := Removed(w.objects, row, outage),
             frames := if Fails(row, outage) then w.frames else w.frames + parties[..Min(sent.value, |parties|)]), None)
  }

  ghost function Run(moves: seq<Move>): Sys {
    if moves == [] then START else Next(Run(moves[..|moves| - 1]), moves[|moves| - 1])
  }

  // ---------------------------------------------------------------- what an open sweep relies on

  /** The row as read, against the row by now: due, and still not destructed. */
  ghost predicate ReadOk(w: World, session: Session, id: MsgId) {
    && id in session.read && id in w.rows && id in w.saved
    && RowOk(session.read[id], w.now, w.saved[id]) && Later(session.read[id], w.rows[id])
    && !w.rows[id].destructed && session.read[id].destructAt.Some? && session.read[id].destructAt.value <= session.now
  }

  /** A message that will be wiped has no object any more. */
  ghost predicate Gone(w: World, session: Session, id: MsgId) {
    id in session.read && (Media(session.read[id]).Some? ==> Media(session.read[id]).value !in w.objects)
  }

  ghost predicate SessionOk(w: World, session: Session) {
    && session.now <= w.now
    && (forall id | id in session.todo :: ReadOk(w, session, id))
    && (forall id | id in session.wiped :: ReadOk(w, session, id) && Gone(w, session, id))
    && (forall i, j | 0 <= i < j < |session.todo| :: session.todo[i] != session.todo[j])
    && (forall i, j | 0 <= i < j < |session.wiped| :: session.wiped[i] != session.wiped[j])
    && (forall id | id in session.todo :: id !in session.wiped)
  }

  ghost predicate SysOk(s: Sys) {
    Inv(s.world) && (s.session.Some? ==> SessionOk(s.world, s.session.value))
  }

  // ---------------------------------------------------------------- steps elsewhere

  /** Other sessions destruct nothing, bring no object back, and change rows only as `Later`
      allows. */
  lemma ElsewhereKeepsRead(w: World, step: Step, session: Session, id: MsgId)
    requires Inv(w) && !step.Sweep? && ReadOk(w, session, id)
    ensures ReadOk(Retention.Next(w, step), session, id)
    ensures Gone(w, session, id) ==> Gone(Retention.Next(w, step), session, id)
  {
    ElsewhereKeepsRow(w, step, session, id);
    if Gone(w, session, id) { ElsewhereKeepsGone(w, step, session, id); }
  }

  lemma ElsewhereKeepsRow(w: World, step: Step, session: Session, id: MsgId)
    requires Inv(w) && !step.Sweep? && ReadOk(w, session, id)
    ensures ReadOk(Retention.Next(w, step), session, id)
  {
    var t := Retention.Next(w, step);
    StepKeepsInv(w, step);
    SavedStays(w, step);
    TimePasses(w, step);
    DestructsNothing(w, step, id);
    assert Later(w.rows[id], t.rows[id]);
    RowOkLater(session.read[id], w.now, t.now, w.saved[id]);
    LaterChain(session.read[id], w.rows[id], t.rows[id]);
  }

  lemma DestructsNothing(w: World, step: Step, id: MsgId)
    requires !step.Sweep? && id in w.rows && !w.rows[id].destructed
    ensures id in Retention.Next(w, step).rows && !Retention.Next(w, step).rows[id].destructed
  {
  }

  lemma ElsewhereKeepsGone(w: World, step: Step, session: Session, id: MsgId)
    requires Inv(w) && ReadOk(w, session, id) && Gone(w, session, id)
    ensures Gone(Retention.Next(w, step), session, id)
  {
    if Media(session.read[id]).Some? {
      var name := session.read[id].mediaKey.value;
      assert w.saved[id] == Some(name) && name in w.drawn;
      if Named(name) in Retention.Next(w, step).objects { NotStoredAgain(w, step, name); }
    }
  }

  lemma RowOkLater(row: Row, now: int, later: int, saved: Option<string>)
    requires RowOk(row, now, saved) && now <= later
    ensures RowOk(row, later, saved)
  {
  }

  lemma LaterChain(a: Row, b: Row, c: Row)
    requires Later(a, b) && Later(b, c)
    ensures Later(a, c)
  {
  }

  lemma TimePasses(w: World, step: Step)
    requires Inv(w)
    ensures w.now <= Retention.Next(w, step).now
  {
  }

  lemma ElsewhereKeepsOk(s: Sys, step: Step)
    requires SysOk(s) && !step.Sweep?
    ensures SysOk(Next(s, Elsewhere(step))) && AllLater(s.world.rows, Next(s, Elsewhere(step)).world.rows)
  {
    var t := Retention.Next(s.world, step);
    StepKeepsInv(s.world, step);
    if s.session.Some? {
      var session := s.session.value;
      TimePasses(s.world, step);
      forall id | id in session.todo ensures ReadOk(t, session, id) { ElsewhereKeepsRead(s.world, step, session, id); }
      forall id | id in session.wiped ensures ReadOk(t, session, id) && Gone(t, session, id) {
        ElsewhereKeepsRead(s.world, step, session, id);
      }
    }
  }

  // ---------------------------------------------------------------- steps of the sweep

  lemma QueryKeepsOk(s: Sys, batch: seq<MsgId>)
    requires SysOk(s)
    ensures SysOk(Next(s, Query(batch)))
  {
    if s.session.None? && IsBatch(s.world.rows, s.world.now, batch) {
      var t := Next(s, Query(batch));
      AllSelfLater(s.world);
      forall id | id in batch ensures ReadOk(t.world, t.session.value, id) {
        assert id in Expired(s.world.rows, s.world.now);
        assert RowOk(s.world.rows[id], s.world.now, s.world.saved[id]) && Later(s.world.rows[id], s.world.rows[id]);
      }
    }
  }

  /** Removing objects harms no row. */
  lemma FewerObjects(w: World, objects: map<Key, Bytes>, frames: seq<(UserId, MsgId)>)
    requires Inv(w) && objects.Keys <= w.objects.Keys
    ensures Inv(w.(objects := objects, frames := frames)) && AllLater(w.rows, w.rows)
  {
    AllSelfLater(w);
    assert RowsOk(w.rows, w.now, w.saved, objects);
  }

  lemma ProcessKeepsOk(s: Sys, outage: Outage)
    requires SysOk(s) && s.session.Some? && s.session.value.todo != []
    ensures SysOk(Next(s, Process(outage))) && AllLater(s.world.rows, Next(s, Process(outage)).world.rows)
  {
    var session := s.session.value;
    var id := session.todo[0];
    assert id in session.todo && ReadOk(s.world, session, id);
    var t := Processed(s.world, session, outage);
    FewerObjects(s.world, t.world.objects, t.world.frames);
    ProcessKeepsSession(s.world, session, outage, id, t.session.value, t.world);
  }

  lemma ProcessKeepsSession(w: World, session: Session, outage: Outage, id: MsgId, left: Session, t: World)
    requires SessionOk(w, session) && session.todo != [] && id == session.todo[0] && id in session.read
    requires Processed(w, session, outage) == Sys(t, Some(left))
    ensures SessionOk(t, left)
  {
    forall j | j in left.todo ensures ReadOk(t, left, j) && j in session.todo && j != id {
      assert j in session.todo && ReadOk(w, session, j);
    }
    forall j | j in left.wiped ensures ReadOk(t, left, j) && Gone(t, left, j) {
      assert ReadOk(w, session, id);
      if j != id { assert j in session.wiped && ReadOk(w, session, j) && Gone(w, session, j); }
    }
    assert id in session.todo;
  }

  /** The row the commit writes. */
  lemma WipedNow(w: World, session: Session, id: MsgId)
    requires Inv(w) && session.now <= w.now && ReadOk(w, session, id) && Gone(w, session, id)
    ensures var row := WipedRow(w.rows[id], session.now);
            RowOk(row, w.now, w.saved[id]) && Later(w.rows[id], row) && NoOrphan(row, w.saved[id], w.objects)
  {
    assert RowOk(w.rows[id], w.now, w.saved[id]);
  }

  lemma {:induction false} AuditsGrow(audits: seq<Audit>, rows: map<MsgId, Row>, wiped: seq<MsgId>, now: int)
    requires AuditsMatch(audits, rows)
    requires forall id | id in wiped :: id in rows && !rows[id].destructed
    requires forall i, j | 0 <= i < j < |wiped| :: wiped[i] != wiped[j]
    ensures AuditsMatch(audits + AuditsOf(wiped), Merged(rows, wiped, now))
  {
    if wiped == [] {
      assert Merged(rows, wiped, now) == rows;
      assert audits + AuditsOf(wiped) == audits;
    } else {
      var n := |wiped| - 1;
      var front, id := wiped[..n], wiped[n];
      assert id !in front;
      AuditsGrow(audits, rows, front, now);
      AuditsAppend(audits + AuditsOf(front), Merged(rows, front, now), id, WipedRow(rows[id], now));
      assert Merged(rows, wiped, now) == Merged(rows, front, now)[id := WipedRow(rows[id], now)];
      assert audits + AuditsOf(wiped) == audits + AuditsOf(front) + [Audit(id, false)];
    }
  }

  lemma CommitKeepsOk(s: Sys)
    requires SysOk(s) && s.session.Some?
    ensures SysOk(Committed(s.world, s.session.value))
            && AllLater(s.world.rows, Committed(s.world, s.session.value).world.rows)
  {
    var w, session := s.world, s.session.value;
    var t := Committed(w, session).world;
    AllSelfLater(w);
    forall id | id in w.rows
      ensures RowOk(t.rows[id], t.now, t.saved[id]) && NoOrphan(t.rows[id], t.saved[id], t.objects) {
      assert RowOk(w.rows[id], w.now, w.saved[id]) && NoOrphan(w.rows[id], w.saved[id], w.objects);
      if id in session.wiped { WipedNow(w, session, id); }
    }
    forall id | id in w.rows ensures id in t.rows && Later(w.rows[id], t.rows[id]) {
      if id in session.wiped { WipedNow(w, session, id); }
    }
    assert t.rows.Keys == w.rows.Keys;
    AuditsGrow(w.audits, w.rows, session.wiped, session.now);
  }

  lemma MoveKeepsOk(s: Sys, move: Move)
    requires SysOk(s)
    ensures SysOk(Next(s, move)) && AllLater(s.world.rows, Next(s, move).world.rows)
  {
    AllSelfLater(s.world);
    match move
    case Elsewhere(step) => if !step.Sweep? { ElsewhereKeepsOk(s, step); }
    case Query(batch) => QueryKeepsOk(s, batch);
    case Process(outage) => if s.session.Some? && s.session.value.todo != [] { ProcessKeepsOk(s, outage); }
    case Commit => if s.session.Some? { CommitKeepsOk(s); }
    case BreakOff(outage, sent) =>
      if s.session.Some? {
        var t := BrokenOff(s.world, s.session.value, outage, sent).world;
        FewerObjects(s.world, t.objects, t.frames);
      }
  }

  /** Whatever commits while a sweep is open: rows obey RowOk, committed audit rows and
      destructed messages match one for one, and no destructed message that was not unsent
      leaves its object in the store. */
  lemma {:induction false} RacesKeepInv(moves: seq<Move>)
    ensures SysOk(Run(moves)) && Inv(Run(moves).world)
  {
    if moves == [] {
      assert Inv(Retention.Run([])) by { Retention.RunKeepsInv([]); }
    } else {
      RacesKeepInv(moves[..|moves| - 1]);
      MoveKeepsOk(Run(moves[..|moves| - 1]), moves[|moves| - 1]);
    }
  }

  /** No row goes, and wiping, READ and tombstones are for ever, under every interleaving. */
  lemma {:induction false} RacingRowsOnlyMoveOn(moves: seq<Move>, k: nat)
    requires k <= |moves|
    ensures AllLater(Run(moves[..k]).world.rows, Run(moves).world.rows)
  {
    if k == |moves| {
      assert moves[..k] == moves;
      RacesKeepInv(moves);
      AllSelfLater(Run(moves).world);
    } else {
      var front := moves[..|moves| - 1];
      assert front[..k] == moves[..k];
      RacingRowsOnlyMoveOn(front, k);
      RacesKeepInv(front);
      MoveKeepsOk(Run(front), moves[|moves| - 1]);
      LaterTrans(Run(moves[..k]).world.rows, Run(front).world.rows, Run(moves).world.rows);
    }
  }

  // ---------------------------------------------------------------- objects left behind

  /** Stored, pointed to by no row, and not in the hand of the open sweep. */
  ghost predicate Forgotten(s: Sys, name: string) {
    && Orphan(s.world, name)
    && (s.session.Some? ==>
          forall id | id in s.session.value.todo && id in s.session.value.read ::
            s.session.value.read[id].mediaKey != Some(name))
  }

  ghost predicate Avoids(s: Sys, move: Move, name: string) {
    move.Elsewhere? ==> Unmentioned(s.world, move.step, name)
  }

  lemma MoveKeepsForgotten(s: Sys, move: Move, name: string)
    requires Forgotten(s, name) && Avoids(s, move, name)
    ensures Forgotten(Next(s, move), name)
  {
    match move
    case Elsewhere(step) => if !step.Sweep? { StepKeepsOrphan(s.world, step, name); }
    case Query(_) =>
    case Process(_) =>
      if s.session.Some? && s.session.value.todo != [] { assert s.session.value.todo[0] in s.session.value.todo; }
    case Commit =>
    case BreakOff(_, _) =>
      if s.session.Some? && s.session.value.todo != [] { assert s.session.value.todo[0] in s.session.value.todo; }
  }

  /** Under every interleaving a forgotten object stays for good, as long as no message is
      saved with its name. */
  lemma {:induction false} ForgottenForGood(moves: seq<Move>, k: nat, name: string)
    requires k <= |moves| && Forgotten(Run(moves[..k]), name)
    requires forall j | k <= j < |moves| :: Avoids(Run(moves[..j]), moves[j], name)
    ensures Forgotten(Run(moves), name)
  {
    if k == |moves| {
      assert moves[..k] == moves;
    } else {
      var n := |moves| - 1;
      var front := moves[..n];
      assert front[..k] == moves[..k];
      forall j | k <= j < n ensures Avoids(Run(front[..j]), front[j], name) {
        assert front[..j] == moves[..j];
      }
      ForgottenForGood(front, k, name);
      MoveKeepsForgotten(Run(front), moves[n], name);
    }
  }
}
