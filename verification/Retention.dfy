/** Messages over time: every run of uploads, saves, receipts, unsends and sweeps, including
    sweeps that roll back and stores that fail. */
module Retention {
  import opened Common
  import opened Storage
  import opened Messages
  import opened SelfDestruct

  /** `saved` remembers the media name each message was saved with, `drawn` every media name
      drawn or mentioned so far: a new object never reuses one. */
  datatype World = World(now: int, rows: map<MsgId, Row>, objects: map<Key, Bytes>, audits: seq<Audit>,
                         frames: seq<(UserId, MsgId)>, saved: map<MsgId, Option<string>>, drawn: set<string>)

  datatype Step =
    | Tick(seconds: nat)
    | StoreMedia(name: string, data: Bytes)
    | Save(id: MsgId, draft: Draft, lag: nat)
    | MarkDelivered(id: MsgId, user: UserId, members: set<(GroupId, UserId)>)
    | MarkRead(id: MsgId, user: UserId, members: set<(GroupId, UserId)>)
    | Unsend(id: MsgId, user: UserId)
    | Sweep(batch: seq<MsgId>, outage: Outage, fail: Option<Failure>)

  const EMPTY := World(0, map[], map[], [], [], map[], {})

  ghost function Next(w: World, step: Step): World {
    match step
    case Tick(seconds) => w.(now := w.now + seconds)
    case StoreMedia(name, data) =>
      if name in w.drawn then w
      else w.(objects := w.objects[Named(name) := data], drawn := w.drawn + {name})
    case Save(id, d, lag) =>
      if id in w.rows || d.recipient.Some? == d.group.Some? then w
      else w.(now := w.now + lag, rows := w.rows[id := NewRow(d, w.now, w.now + lag)],
              saved := w.saved[id := d.mediaKey],
              drawn := if d.mediaKey.Some? then w.drawn + {d.mediaKey.value} else w.drawn)
    case MarkDelivered(id, user, members) =>
      if id in w.rows && Participates(w.rows[id], user, members)
      then w.(rows := w.rows[id := DeliveredRow(w.rows[id], w.now)])
      else w
    case MarkRead(id, user, members) =>
      if id in w.rows && Participates(w.rows[id], user, members)
      then w.(rows := w.rows[id := ReadRow(w.rows[id], w.now)])
      else w
    case Unsend(id, user) =>
      if id in w.rows && MayUnsend(w.rows[id], user, w.now)
      then w.(rows := w.rows[id := UnsentRow(w.rows[id], w.now)])
      else w
    case Sweep(batch, outage, fail) =>
      if !IsBatch(w.rows, w.now, batch) || (fail.Some? && fail.value.done > |batch|) then w
      else if fail.Some? then RolledBack(w, BrokenPass(StartPass(w), batch, w.now, outage, fail.value))
      else Committed(w, SweepPass(StartPass(w), batch, w.now, outage, |batch|))
  }

  function StartPass(w: World): Pass {
    Pass(w.rows, w.objects, [], w.frames)
  }

  function Committed(w: World, p: Pass): World {
    w.(rows := p.rows, objects := p.objects, audits := w.audits + p.audits, frames := p.frames)
  }

  function RolledBack(w: World, p: Pass): World {
    w.(objects := p.objects, frames := p.frames)
  }

  ghost function Run(steps: seq<Step>): World {
    if steps == [] then EMPTY else Next(Run(steps[..|steps| - 1]), steps[|steps| - 1])
  }

  // ---------------------------------------------------------------- what every run keeps

  /** One row, given the media name it was saved with. */
  ghost predicate RowOk(row: Row, now: int, saved: Option<string>) {
    && (row.destructed || row.deletedForEveryone ==> Blank(row))
    && (row.mediaKey == saved || (row.mediaKey.None? && (row.destructed || row.deletedForEveryone)))
    && (row.status == Sent || row.status == Read)
    && (row.status == Read <==> row.readAt.Some?)
    && row.deliveredAt.Some?
    && (row.readAt.Some? ==> row.deliveredAt.value <= row.readAt.value)
    && row.deliveredAt.value <= row.createdAt <= now
    && (row.isSelfDestruct <==> row.destructAfter.Some?)
    && row.destructAt ==
         (if Timer(row.destructAfter).Some? then Some(row.deliveredAt.value + row.destructAfter.value) else None)
    && (row.destructed ==> row.destructAt.Some? && row.destructAt.value <= now)
    && (row.recipient.Some? != row.group.Some?)
  }

  ghost predicate DistinctIds(audits: seq<Audit>) {
    forall i, j | 0 <= i < j < |audits| :: audits[i].id != audits[j].id
  }

  /** Committed destruct audit rows and destructed messages, one for one. */
  ghost predicate AuditsMatch(audits: seq<Audit>, rows: map<MsgId, Row>) {
    && DistinctIds(audits)
    && (forall i | 0 <= i < |audits| :: audits[i].id in rows && rows[audits[i].id].destructed && !audits[i].hadMedia)
    && (forall id | id in rows && rows[id].destructed :: exists i :: 0 <= i < |audits| && audits[i].id == id)
  }

  /** A destructed message that was not unsent leaves no object behind. */
  ghost predicate NoOrphan(row: Row, saved: Option<string>, objects: map<Key, Bytes>) {
    row.destructed && !row.deletedForEveryone && saved.Some? && saved.value != "" ==> Named(saved.value) !in objects
  }

  ghost predicate RowsOk(rows: map<MsgId, Row>, now: int, saved: map<MsgId, Option<string>>, objects: map<Key, Bytes>) {
    && saved.Keys == rows.Keys
    && forall id | id in rows :: RowOk(rows[id], now, saved[id]) && NoOrphan(rows[id], saved[id], objects)
  }

  ghost predicate NamesDrawn(saved: map<MsgId, Option<string>>, drawn: set<string>) {
    forall id | id in saved && saved[id].Some? :: saved[id].value in drawn
  }

  ghost predicate Inv(w: World) {
    RowsOk(w.rows, w.now, w.saved, w.objects) && NamesDrawn(w.saved, w.drawn) && AuditsMatch(w.audits, w.rows)
  }

  /** How a row may change: parties, times and timer stay, wiping and READ are for ever. */
  ghost predicate Later(earlier: Row, later: Row) {
    && later.sender == earlier.sender && later.recipient == earlier.recipient && later.group == earlier.group
    && later.createdAt == earlier.createdAt && later.destructAt == earlier.destructAt
    && later.deliveredAt == earlier.deliveredAt
    && (earlier.destructed ==> later.destructed) && (earlier.deletedForEveryone ==> later.deletedForEveryone)
    && (earlier.readAt.Some? ==> later.status == Read && later.readAt == earlier.readAt)
    && (earlier.mediaKey.None? ==> later.mediaKey.None?) && (earlier.content.None? ==> later.content.None?)
  }

  ghost predicate AllLater(rows: map<MsgId, Row>, rows': map<MsgId, Row>) {
    forall id | id in rows :: id in rows' && Later(rows[id], rows'[id])
  }

  lemma RowStepsOk(row: Row, now: int, saved: Option<string>)
    requires RowOk(row, now, saved)
    ensures RowOk(DeliveredRow(row, now), now, saved) && Later(row, DeliveredRow(row, now))
    ensures RowOk(ReadRow(row, now), now, saved) && Later(row, ReadRow(row, now))
    ensures RowOk(UnsentRow(row, now), now, saved) && Later(row, UnsentRow(row, now))
    ensures row.destructAt.Some? && row.destructAt.value <= now ==>
              RowOk(WipedRow(row, now), now, saved) && Later(row, WipedRow(row, now))
  {}

  lemma AuditsCarry(audits: seq<Audit>, rows: map<MsgId, Row>, rows': map<MsgId, Row>)
    requires AuditsMatch(audits, rows)
    requires forall id | id in rows :: id in rows' && (rows[id].destructed ==> rows'[id].destructed)
    requires forall id | id in rows' && rows'[id].destructed :: id in rows && rows[id].destructed
    ensures AuditsMatch(audits, rows')
  {}

  lemma AuditsAppend(audits: seq<Audit>, rows: map<MsgId, Row>, id: MsgId, row: Row)
    requires AuditsMatch(audits, rows) && id in rows && !rows[id].destructed && row.destructed
    ensures AuditsMatch(audits + [Audit(id, false)], rows[id := row])
  {
    var more := audits + [Audit(id, false)];
    var rows' := rows[id := row];
    forall i | i in rows' && rows'[i].destructed ensures exists k :: 0 <= k < |more| && more[k].id == i {
      if i == id {
        assert more[|audits|].id == id;
      } else {
        var k :| 0 <= k < |audits| && audits[k].id == i;
        assert more[k].id == i;
      }
    }
  }

  /** Updating one row without destructing it. */
  lemma UpdateKeepsInv(w: World, id: MsgId, row: Row)
    requires Inv(w) && id in w.rows
    requires RowOk(row, w.now, w.saved[id]) && Later(w.rows[id], row)
    requires row.destructed == w.rows[id].destructed
    ensures Inv(w.(rows := w.rows[id := row])) && AllLater(w.rows, w.rows[id := row])
  {}

  lemma AllSelfLater(w: World)
    requires Inv(w)
    ensures AllLater(w.rows, w.rows)
  {}

  /** Wiping one due message inside a sweep, or leaving it queued. */
  lemma SweepOneKeepsInv(w: World, p: Pass, id: MsgId, outage: Outage)
    requires Inv(Committed(w, p)) && id in p.rows && !p.rows[id].destructed
    requires p.rows[id].destructAt.Some? && p.rows[id].destructAt.value <= w.now
    ensures Inv(Committed(w, SweepOne(p, id, w.now, outage)))
    ensures AllLater(p.rows, SweepOne(p, id, w.now, outage).rows)
  {
    var q := SweepOne(p, id, w.now, outage);
    var row := p.rows[id];
    AllSelfLater(Committed(w, p));
    assert RowOk(row, w.now, w.saved[id]);
    RowStepsOk(row, w.now, w.saved[id]);
    assert q.rows.Keys == p.rows.Keys;
    if !Fails(row, outage) {
      assert q.rows == p.rows[id := WipedRow(row, w.now)];
      assert (w.audits + p.audits) + [Audit(id, false)] == w.audits + q.audits;
      AuditsAppend(w.audits + p.audits, p.rows, id, WipedRow(row, w.now));
      assert NoOrphan(q.rows[id], w.saved[id], q.objects);
    }
    assert RowsOk(q.rows, w.now, w.saved, q.objects);
  }

  lemma {:induction false} ObjectsOnlyGo(start: Pass, batch: seq<MsgId>, now: int, outage: Outage, k: nat)
    requires k <= |batch| && forall i | 0 <= i < |batch| :: batch[i] in start.rows
    ensures SweepPass(start, batch, now, outage, k).objects.Keys <= start.objects.Keys
  {
    if k > 0 {
      ObjectsOnlyGo(start, batch, now, outage, k - 1);
      SweepOneFrame(SweepPass(start, batch, now, outage, k - 1), batch[k - 1], now, outage, batch[k - 1]);
    }
  }

  lemma LaterTrans(a: map<MsgId, Row>, b: map<MsgId, Row>, c: map<MsgId, Row>)
    requires AllLater(a, b) && AllLater(b, c)
    ensures AllLater(a, c)
  {}

  ghost predicate SessionOk(w: World, p: Pass) {
    Inv(Committed(w, p)) && AllLater(w.rows, p.rows)
  }

  lemma SweepStepOk(w: World, p: Pass, id: MsgId, q: Pass, outage: Outage)
    requires SessionOk(w, p) && id in Expired(w.rows, w.now)
    requires AsSelected(StartPass(w), p, id) && q == SweepOne(p, id, w.now, outage)
    ensures SessionOk(w, q)
  {
    SweepOneKeepsInv(w, p, id, outage);
    LaterTrans(w.rows, p.rows, q.rows);
  }

  lemma StartSessionOk(w: World)
    requires Inv(w)
    ensures SessionOk(w, StartPass(w))
  {
    assert Committed(w, StartPass(w)) == w by {
      assert w.audits + [] == w.audits;
    }
    AllSelfLater(w);
  }

  /** The pass as it goes from message to message. */
  lemma {:induction false} Passes(start: Pass, batch: seq<MsgId>, now: int, outage: Outage, k: nat, p: Pass)
    returns (ps: seq<Pass>)
    requires IsPass(start, batch, now, outage, k, p)
    ensures |ps| == k + 1 && ps[0] == start && ps[k] == p && k <= |batch|
    ensures forall i: nat | i < k :: OneOn(start, batch, now, outage, ps, i)
  {
    if k == 0 {
      ps := [p];
    } else {
      var before := LastOfPass(start, batch, now, outage, k, p);
      var fewer := Passes(start, batch, now, outage, k - 1, before);
      ps := fewer + [p];
      forall i: nat | i < k ensures OneOn(start, batch, now, outage, ps, i) {
        assert i < k - 1 ==> OneOn(start, batch, now, outage, fewer, i);
      }
    }
  }

  ghost predicate OneOn(start: Pass, batch: seq<MsgId>, now: int, outage: Outage, ps: seq<Pass>, i: nat) {
    && i < |batch| && i + 1 < |ps| && AsSelected(start, ps[i], batch[i])
    && ps[i + 1] == SweepOne(ps[i], batch[i], now, outage)
  }

  ghost predicate KeepsOk(w: World, ps: seq<Pass>, i: nat) {
    i + 1 < |ps| && (SessionOk(w, ps[i]) ==> SessionOk(w, ps[i + 1]))
  }

  lemma {:induction false} PassesKeepOk(w: World, ps: seq<Pass>, k: nat)
    requires k < |ps| && SessionOk(w, ps[0]) && forall i: nat | i + 1 < |ps| :: KeepsOk(w, ps, i)
    ensures SessionOk(w, ps[k])
  {
    if k > 0 {
      PassesKeepOk(w, ps, k - 1);
      assert KeepsOk(w, ps, k - 1);
    }
  }

  lemma SweepPassKeepsInv(w: World, batch: seq<MsgId>, outage: Outage, p: Pass)
    requires Inv(w) && IsBatch(w.rows, w.now, batch) && IsPass(StartPass(w), batch, w.now, outage, |batch|, p)
    ensures SessionOk(w, p)
  {
    var ps := Passes(StartPass(w), batch, w.now, outage, |batch|, p);
    forall i: nat | i + 1 < |ps| ensures KeepsOk(w, ps, i) {
      assert OneOn(StartPass(w), batch, w.now, outage, ps, i);
      if SessionOk(w, ps[i]) { SweepStepOk(w, ps[i], batch[i], ps[i + 1], outage); }
    }
    StartSessionOk(w);
    PassesKeepOk(w, ps, |batch|);
  }

  lemma BrokenObjects(start: Pass, batch: seq<MsgId>, now: int, outage: Outage, fail: Failure)
    requires fail.done <= |batch| && forall i | 0 <= i < |batch| :: batch[i] in start.rows
    ensures BrokenPass(start, batch, now, outage, fail).objects.Keys <= start.objects.Keys
  {
    ObjectsOnlyGo(start, batch, now, outage, fail.done);
  }

  lemma RollbackKeepsInv(w: World, p: Pass)
    requires Inv(w) && p.objects.Keys <= w.objects.Keys
    ensures Inv(RolledBack(w, p)) && AllLater(w.rows, RolledBack(w, p).rows)
  {
    AllSelfLater(w);
    assert RowsOk(w.rows, w.now, w.saved, p.objects);
  }

  lemma StepKeepsInv(w: World, step: Step)
    requires Inv(w)
    ensures Inv(Next(w, step)) && AllLater(w.rows, Next(w, step).rows)
  {
    AllSelfLater(w);
    match step
    case Tick(_) => assert RowsOk(w.rows, Next(w, step).now, w.saved, w.objects);
    case StoreMedia(_, _) => assert RowsOk(w.rows, w.now, w.saved, Next(w, step).objects);
    case Save(id, d, lag) => SaveKeepsInv(w, id, d, lag);
    case MarkDelivered(id, _, _) => if Next(w, step) != w { RowUpdate(w, id); }
    case MarkRead(id, _, _) => if Next(w, step) != w { RowUpdate(w, id); }
    case Unsend(id, _) => if Next(w, step) != w { RowUpdate(w, id); }
    case Sweep(batch, outage, fail) =>
      if IsBatch(w.rows, w.now, batch) && !(fail.Some? && fail.value.done > |batch|) {
        SweepKeepsInv(w, batch, outage, fail);
      }
  }

  lemma SweepKeepsInv(w: World, batch: seq<MsgId>, outage: Outage, fail: Option<Failure>)
    requires Inv(w) && IsBatch(w.rows, w.now, batch) && (fail.Some? ==> fail.value.done <= |batch|)
    ensures var w' := Next(w, Sweep(batch, outage, fail)); Inv(w') && AllLater(w.rows, w'.rows)
  {
    BatchInRows(w.rows, w.now, batch);
    if fail.Some? {
      BrokenObjects(StartPass(w), batch, w.now, outage, fail.value);
      RollbackKeepsInv(w, BrokenPass(StartPass(w), batch, w.now, outage, fail.value));
    } else {
      var p := CommittedPass(w, batch, outage);
      SweepPassKeepsInv(w, batch, outage, p);
    }
  }

  lemma CommittedPass(w: World, batch: seq<MsgId>, outage: Outage) returns (p: Pass)
    requires IsBatch(w.rows, w.now, batch)
    ensures IsPass(StartPass(w), batch, w.now, outage, |batch|, p)
    ensures Next(w, Sweep(batch, outage, None)) == Committed(w, p)
  {
    BatchInRows(w.rows, w.now, batch);
    p := SweepPass(StartPass(w), batch, w.now, outage, |batch|);
  }

  lemma RowUpdate(w: World, id: MsgId)
    requires Inv(w) && id in w.rows
    ensures var row := w.rows[id];
            && Inv(w.(rows := w.rows[id := DeliveredRow(row, w.now)]))
               && AllLater(w.rows, w.rows[id := DeliveredRow(row, w.now)])
            && Inv(w.(rows := w.rows[id := ReadRow(row, w.now)])) && AllLater(w.rows, w.rows[id := ReadRow(row, w.now)])
            && Inv(w.(rows := w.rows[id := UnsentRow(row, w.now)]))
               && AllLater(w.rows, w.rows[id := UnsentRow(row, w.now)])
  {
    var row := w.rows[id];
    assert RowOk(row, w.now, w.saved[id]);
    RowStepsOk(row, w.now, w.saved[id]);
    UpdateKeepsInv(w, id, DeliveredRow(row, w.now));
    UpdateKeepsInv(w, id, ReadRow(row, w.now));
    UpdateKeepsInv(w, id, UnsentRow(row, w.now));
  }

  lemma SaveKeepsInv(w: World, id: MsgId, d: Draft, lag: nat)
    requires Inv(w)
    ensures var w' := Next(w, Save(id, d, lag)); Inv(w') && AllLater(w.rows, w'.rows)
  {
    AllSelfLater(w);
    if Next(w, Save(id, d, lag)) != w {
      SavedKeepsInv(w, id, d, w.now + lag, Next(w, Save(id, d, lag)));
    }
  }

  lemma SavedKeepsInv(w: World, id: MsgId, d: Draft, created: int, w': World)
    requires Inv(w) && id !in w.rows && d.recipient.Some? != d.group.Some? && w.now <= created
    requires w' == w.(now := created, rows := w.rows[id := NewRow(d, w.now, created)],
                      saved := w.saved[id := d.mediaKey], drawn := w'.drawn)
    requires w.drawn <= w'.drawn && (d.mediaKey.Some? ==> d.mediaKey.value in w'.drawn)
    ensures Inv(w') && AllLater(w.rows, w'.rows)
  {
    AllSelfLater(w);
    NewRowCarries(w, id, NewRow(d, w.now, created));
    NewRowOk(d, w.now, created - w.now);
    OthersStayOk(w, w', id);
  }

  lemma NewRowCarries(w: World, id: MsgId, row: Row)
    requires AuditsMatch(w.audits, w.rows) && id !in w.rows && !row.destructed
    ensures AuditsMatch(w.audits, w.rows[id := row])
  {
    AuditsCarry(w.audits, w.rows, w.rows[id := row]);
  }

  lemma NewRowOk(d: Draft, now: int, lag: nat)
    requires d.recipient.Some? != d.group.Some?
    ensures RowOk(NewRow(d, now, now + lag), now + lag, d.mediaKey)
  {}

  /** Adding one live row, with time passing, leaves the others in order. */
  lemma OthersStayOk(w: World, w': World, id: MsgId)
    requires Inv(w) && w.now <= w'.now && w'.objects == w.objects
    requires w'.rows.Keys == w.rows.Keys + {id} == w'.saved.Keys
    requires forall i | i in w.rows && i != id :: w'.rows[i] == w.rows[i] && w'.saved[i] == w.saved[i]
    requires RowOk(w'.rows[id], w'.now, w'.saved[id]) && !w'.rows[id].destructed
    ensures RowsOk(w'.rows, w'.now, w'.saved, w'.objects)
  {
    forall i | i in w'.rows
      ensures RowOk(w'.rows[i], w'.now, w'.saved[i]) && NoOrphan(w'.rows[i], w'.saved[i], w'.objects) {
      if i != id {
        assert RowOk(w.rows[i], w.now, w.saved[i]) && NoOrphan(w.rows[i], w.saved[i], w.objects);
      }
    }
  }

  /** Every run: rows obey RowOk, audit rows and destructed messages match one for one, and no
      destructed message that was not unsent leaves its object in the store. */
  lemma {:induction false} RunKeepsInv(steps: seq<Step>)
    ensures Inv(Run(steps))
  {
    if steps != [] {
      RunKeepsInv(steps[..|steps| - 1]);
      StepKeepsInv(Run(steps[..|steps| - 1]), steps[|steps| - 1]);
    }
  }

  /** Rows are never removed and only change as `Later` allows, over any stretch of a run. */
  lemma {:induction false} RowsOnlyMoveOn(steps: seq<Step>, k: nat)
    requires k <= |steps|
    ensures AllLater(Run(steps[..k]).rows, Run(steps).rows)
  {
    if k == |steps| {
      assert steps[..k] == steps;
      RunKeepsInv(steps);
      AllSelfLater(Run(steps));
    } else {
      var front := steps[..|steps| - 1];
      assert front[..k] == steps[..k];
      RowsOnlyMoveOn(front, k);
      RunKeepsInv(front);
      StepKeepsInv(Run(front), steps[|steps| - 1]);
    }
  }

  // ---------------------------------------------------------------- one sweep

  /** What a sweep does to message `i` of its batch: it is wiped unless its media object
      could not be removed, and then the row is untouched. */
  lemma {:induction false} WipedExactly(start: Pass, batch: seq<MsgId>, now: int, outage: Outage, k: nat, i: nat)
    requires k <= |batch| && forall j | 0 <= j < |batch| :: batch[j] in start.rows
    requires forall j, l | 0 <= j < l < |batch| :: batch[j] != batch[l]
    requires i < k
    ensures SweepPass(start, batch, now, outage, k).rows[batch[i]] ==
            if Fails(start.rows[batch[i]], outage) then start.rows[batch[i]] else WipedRow(start.rows[batch[i]], now)
  {
    var p := SweepPass(start, batch, now, outage, k - 1);
    if i == k - 1 {
      SweepPassFrame(start, batch, now, outage, k - 1, batch[i]);
    } else {
      WipedExactly(start, batch, now, outage, k - 1, i);
      SweepOneFrame(p, batch[k - 1], now, outage, batch[i]);
    }
  }

  ghost predicate ClearedAreGone(start: Pass, p: Pass) {
    forall id | id in start.rows && Media(start.rows[id]).Some? ::
      id in p.rows && (p.rows[id] == start.rows[id] || Media(start.rows[id]).value !in p.objects)
  }

  lemma StepClears(start: Pass, p: Pass, id: MsgId, now: int, outage: Outage, q: Pass)
    requires ClearedAreGone(start, p) && AsSelected(start, p, id) && q == SweepOne(p, id, now, outage)
    ensures ClearedAreGone(start, q)
  {
    forall j | j in start.rows && Media(start.rows[j]).Some?
      ensures j in q.rows && (q.rows[j] == start.rows[j] || Media(start.rows[j]).value !in q.objects)
    {
      assert j in p.rows;
      SweepOneFrame(p, id, now, outage, j);
    }
  }

  lemma {:induction false} PassClears(start: Pass, batch: seq<MsgId>, now: int, outage: Outage, k: nat, p: Pass)
    requires IsPass(start, batch, now, outage, k, p)
    ensures ClearedAreGone(start, p)
  {
    if k > 0 {
      var before := LastOfPass(start, batch, now, outage, k, p);
      PassClears(start, batch, now, outage, k - 1, before);
      StepClears(start, before, batch[k - 1], now, outage, p);
    }
  }

  /** A sweep never clears a pointer whose object is still stored, whatever the store does. */
  lemma ClearedPointersHaveNoObject(w: World, batch: seq<MsgId>, outage: Outage, id: MsgId)
    requires IsBatch(w.rows, w.now, batch) && id in w.rows && Media(w.rows[id]).Some?
    ensures var w' := Next(w, Sweep(batch, outage, None));
            w'.rows[id].mediaKey != w.rows[id].mediaKey ==> Media(w.rows[id]).value !in w'.objects
  {
    BatchInRows(w.rows, w.now, batch);
    var start := StartPass(w);
    PassClears(start, batch, w.now, outage, |batch|, SweepPass(start, batch, w.now, outage, |batch|));
  }

  /** After a sweep has rolled back at any point, its rows and audit rows are as before, and a
      re-run against a healthy store wipes the whole batch: objects that are already gone do
      not count as failures. */
  lemma RetryAfterRollback(w: World, batch: seq<MsgId>, outage: Outage, fail: Failure, i: nat)
    requires IsBatch(w.rows, w.now, batch) && fail.done <= |batch| && i < |batch|
    ensures var w1 := Next(w, Sweep(batch, outage, Some(fail)));
            var w2 := Next(w1, Sweep(batch, HEALTHY, None));
            && w1.rows == w.rows && w1.audits == w.audits
            && batch[i] in w.rows && batch[i] in w2.rows && w2.rows[batch[i]] == WipedRow(w.rows[batch[i]], w.now)
  {
    BatchInRows(w.rows, w.now, batch);
    var w1 := Next(w, Sweep(batch, outage, Some(fail)));
    WipedExactly(StartPass(w1), batch, w1.now, HEALTHY, |batch|, i);
  }

  lemma RunSnoc(steps: seq<Step>, step: Step)
    ensures Run(steps + [step]) == Next(Run(steps), step)
  {}

  /** Unsend forgets the media name without removing the object, so the later sweep cannot:
      a run after which the message is destructed and its object is still stored. */
  lemma UnsendOrphansMedia()
    ensures exists steps :: var w := Run(steps);
              1 in w.rows && w.rows[1].destructed && w.rows[1].deletedForEveryone
              && w.saved == map[1 := Some("m")] && Named("m") in w.objects
  {
    var steps, w := UnsentRun();
    RunSnoc(steps, Sweep([1], HEALTHY, None));
    assert Expired(w.rows, w.now) == {1};
    assert IsBatch(w.rows, w.now, [1]);
    assert SweepPass(StartPass(w), [1], 60, HEALTHY, 0) == StartPass(w);
    assert SweepPass(StartPass(w), [1], 60, HEALTHY, 1) == SweepOne(StartPass(w), 1, 60, HEALTHY);
    assert Next(w, Sweep([1], HEALTHY, None)).rows[1].destructed;
  }

  lemma UnsentRun() returns (steps: seq<Step>, w: World)
    ensures Run(steps) == w && w.now == 60
    ensures var draft := Draft("a", Some("b"), None, "image", None, Some("m"), Some("image/png"), Some(60));
            w.rows == map[1 := UnsentRow(NewRow(draft, 0, 0), 0)]
    ensures w.saved == map[1 := Some("m")] && Named("m") in w.objects
  {
    var draft := Draft("a", Some("b"), None, "image", None, Some("m"), Some("image/png"), Some(60));
    steps := [];
    RunSnoc(steps, StoreMedia("m", [1]));
    steps := steps + [StoreMedia("m", [1])];
    RunSnoc(steps, Save(1, draft, 0));
    steps := steps + [Save(1, draft, 0)];
    RunSnoc(steps, Unsend(1, "a"));
    steps := steps + [Unsend(1, "a")];
    RunSnoc(steps, Tick(60));
    steps := steps + [Tick(60)];
    w := Run(steps);
  }
}
