/** The self-destruct sweep: one pass of the worker over a batch of expired messages, with a
    store that may fail and a transaction that may roll back. */
module SelfDestruct {
  import opened Common
  import opened Storage
  import opened Messages

  const BATCH_SIZE: nat := 500

  /** An audit row `message.self_destructed`. */
  datatype Audit = Audit(id: MsgId, hadMedia: bool)

  /** What a sweep has done so far: its session's rows, the object store, the audit rows it
      would commit and the unsend frames it has published. */
  datatype Pass = Pass(rows: map<MsgId, Row>, objects: map<Key, Bytes>, audits: seq<Audit>,
                       frames: seq<(UserId, MsgId)>)

  function Expired(rows: map<MsgId, Row>, now: int): set<MsgId> {
    set id | id in rows && !rows[id].destructed && rows[id].destructAt.Some? && rows[id].destructAt.value <= now
  }

  /** Any answer of the query: LIMIT picks which rows, in any order. */
  ghost predicate IsBatch(rows: map<MsgId, Row>, now: int, batch: seq<MsgId>) {
    && (forall i, j | 0 <= i < j < |batch| :: batch[i] != batch[j])
    && (forall i | 0 <= i < |batch| :: batch[i] in Expired(rows, now))
    && |batch| == Min(BATCH_SIZE, |Expired(rows, now)|)
  }

  function WipedRow(row: Row, now: int): Row {
    row.(content := None, mediaKey := None, mediaMime := None, destructed := true, deletedAt := Some(now))
  }

  /** The object a sweep must remove before it may wipe the row. */
  function Media(row: Row): Option<Key> {
    if row.mediaKey.Some? && row.mediaKey.value != "" then Some(Named(row.mediaKey.value)) else None
  }

  function Parties(row: Row, id: MsgId): seq<(UserId, MsgId)> {
    (if row.recipient.Some? then [(row.recipient.value, id)] else []) + [(row.sender, id)]
  }

  /** The loop body for one message. */
  function SweepOne(p: Pass, id: MsgId, now: int, outage: Outage): Pass
    requires id in p.rows
  {
    var row := p.rows[id];
    var media := Media(row);
    var raised := media.Some? && media.value in outage.raises;
    var removed := media.Some? && (!raised || media.value in outage.lost);
    var objects := if removed then p.objects - {media.value} else p.objects;
    if raised then p.(objects := objects)
    else
      var wiped := WipedRow(row, now);
      Pass(p.rows[id := wiped], objects, p.audits + [Audit(id, wiped.mediaKey.Some?)], p.frames + Parties(row, id))
  }

  /** The first `k` messages of the batch. */
  function SweepPass(start: Pass, batch: seq<MsgId>, now: int, outage: Outage, k: nat): (p: Pass)
    requires k <= |batch| && forall i | 0 <= i < |batch| :: batch[i] in start.rows
    ensures p.rows.Keys == start.rows.Keys
  {
    if k == 0 then start else SweepOne(SweepPass(start, batch, now, outage, k - 1), batch[k - 1], now, outage)
  }

  /** Where a sweep breaks off: after `done` messages; and, if an exception comes from the next
      one, after how many of its frames have been published. */
  datatype Failure = Failure(done: nat, sent: Option<nat>)

  /** The message an exception comes from: its object is gone, some of its frames are out. */
  function Broken(p: Pass, id: MsgId, now: int, outage: Outage, sent: nat): Pass
    requires id in p.rows
  {
    var q := SweepOne(p, id, now, outage);
    var parties := Parties(p.rows[id], id);
    p.(objects := q.objects, frames := if Fails(p.rows[id], outage) then p.frames
       else p.frames + parties[..Min(sent, |parties|)])
  }

  function BrokenPass(start: Pass, batch: seq<MsgId>, now: int, outage: Outage, fail: Failure): (p: Pass)
    requires fail.done <= |batch| && forall i | 0 <= i < |batch| :: batch[i] in start.rows
    ensures p.rows.Keys == start.rows.Keys
  {
    var p := SweepPass(start, batch, now, outage, fail.done);
    if fail.done < |batch| && fail.sent.Some? then Broken(p, batch[fail.done], now, outage, fail.sent.value) else p
  }

  /** The messages of the batch whose media the store refuses to remove. */
  predicate Fails(row: Row, outage: Outage) {
    Media(row).Some? && Media(row).value in outage.raises
  }

  // ---------------------------------------------------------------- message by message

  lemma SweepOneFrame(p: Pass, id: MsgId, now: int, outage: Outage, other: MsgId)
    requires id in p.rows && other in p.rows
    ensures var q := SweepOne(p, id, now, outage);
            && (other != id ==> q.rows[other] == p.rows[other])
            && q.objects.Keys <= p.objects.Keys
  {}

  /** A message the sweep has not reached is as it was; objects only disappear. */
  lemma {:induction false} SweepPassFrame(start: Pass, batch: seq<MsgId>, now: int, outage: Outage, k: nat,
                                          other: MsgId)
    requires k <= |batch| && forall i | 0 <= i < |batch| :: batch[i] in start.rows
    requires other in start.rows && forall i | 0 <= i < k :: batch[i] != other
    ensures SweepPass(start, batch, now, outage, k).rows[other] == start.rows[other]
  {
    if k > 0 {
      SweepPassFrame(start, batch, now, outage, k - 1, other);
      SweepOneFrame(SweepPass(start, batch, now, outage, k - 1), batch[k - 1], now, outage, other);
    }
  }

  /** What a pass has done after `k` messages of its batch. */
  ghost predicate IsPass(start: Pass, batch: seq<MsgId>, now: int, outage: Outage, k: nat, p: Pass) {
    && k <= |batch|
    && (forall i | 0 <= i < |batch| :: batch[i] in start.rows)
    && (forall i, j | 0 <= i < j < |batch| :: batch[i] != batch[j])
    && p == SweepPass(start, batch, now, outage, k)
  }

  /** One message more: the sweep finds the row the query returned. */
  lemma LastOfPass(start: Pass, batch: seq<MsgId>, now: int, outage: Outage, k: nat, p: Pass) returns (before: Pass)
    requires k > 0 && IsPass(start, batch, now, outage, k, p)
    ensures IsPass(start, batch, now, outage, k - 1, before)
    ensures AsSelected(start, before, batch[k - 1]) && p == SweepOne(before, batch[k - 1], now, outage)
  {
    before := SweepPass(start, batch, now, outage, k - 1);
    SweepPassFrame(start, batch, now, outage, k - 1, batch[k - 1]);
  }

  ghost predicate AsSelected(start: Pass, p: Pass, id: MsgId) {
    id in start.rows && id in p.rows && p.rows[id] == start.rows[id]
  }

  // ---------------------------------------------------------------- who is told

  /** The store will raise when the object of this row is removed. */
  predicate Raises(row: Row, outage: Outage) {
    row.mediaKey.Some? && row.mediaKey.value != "" && Named(row.mediaKey.value) in outage.raises
  }

  /** The frame for the recipient, and right behind it the one for the sender. */
  ghost predicate InTurn(told: seq<(UserId, MsgId)>, row: Row, id: MsgId) {
    row.recipient.Some? ==> exists p :: 0 <= p < |told| - 1 && TwoAt(told, p, row, id)
  }

  predicate TwoAt(told: seq<(UserId, MsgId)>, p: nat, row: Row, id: MsgId)
    requires row.recipient.Some? && p + 1 < |told|
  {
    told[p] == (row.recipient.value, id) && told[p + 1] == (row.sender, id)
  }

  /** Of each of these messages its recipient, if any, has been told once and its sender once,
      recipient first; and nobody of anything else. */
  ghost predicate Told(told: seq<(UserId, MsgId)>, rows: map<MsgId, Row>, ids: set<MsgId>) {
    && (forall user, id :: multiset(told)[(user, id)] ==
                           if id !in ids || id !in rows then 0
                           else (if rows[id].recipient == Some(user) then 1 else 0) +
                                if rows[id].sender == user then 1 else 0)
    && (forall id | id in ids && id in rows :: InTurn(told, rows[id], id))
  }

  /** The messages whose removal does not raise. */
  function Removable(rows: map<MsgId, Row>, batch: seq<MsgId>, outage: Outage): set<MsgId> {
    set id | id in batch && id in rows && !Raises(rows[id], outage)
  }

  lemma InTurnStays(told: seq<(UserId, MsgId)>, more: seq<(UserId, MsgId)>, row: Row, id: MsgId)
    requires InTurn(told, row, id) && told <= more
    ensures InTurn(more, row, id)
  {
    if row.recipient.Some? {
      var p :| 0 <= p < |told| - 1 && TwoAt(told, p, row, id);
      assert TwoAt(more, p, row, id);
    }
  }

  /** One more message. */
  lemma TellsOneMore(told: seq<(UserId, MsgId)>, rows: map<MsgId, Row>, ids: set<MsgId>, id: MsgId)
    requires Told(told, rows, ids) && id in rows && id !in ids
    ensures Told(told + Parties(rows[id], id), rows, ids + {id})
  {
    var parties := Parties(rows[id], id);
    var more := told + parties;
    forall user, i
      ensures multiset(more)[(user, i)] == if i !in ids + {id} || i !in rows then 0
                                           else (if rows[i].recipient == Some(user) then 1 else 0) +
                                                if rows[i].sender == user then 1 else 0
    {
      assert multiset(more) == multiset(told) + multiset(parties);
    }
    forall i | i in ids + {id} && i in rows ensures InTurn(more, rows[i], i) {
      if i == id {
        if rows[id].recipient.Some? { assert TwoAt(more, |told|, rows[id], id); }
      } else {
        InTurnStays(told, more, rows[i], i);
      }
    }
  }

  lemma BatchInRows(rows: map<MsgId, Row>, now: int, batch: seq<MsgId>)
    requires IsBatch(rows, now, batch)
    ensures forall i | 0 <= i < |batch| :: batch[i] in rows
  {}

  lemma ToldNothing(rows: map<MsgId, Row>)
    ensures Told([], rows, {})
  {}

  /** The frames of a pass beyond those there were: the parties of what could be removed. */
  ghost predicate PassTold(start: Pass, p: Pass, ids: set<MsgId>) {
    start.frames <= p.frames && Told(p.frames[|start.frames|..], start.rows, ids)
  }

  lemma OneTells(start: Pass, p: Pass, q: Pass, id: MsgId, now: int, outage: Outage, ids: set<MsgId>)
    requires PassTold(start, p, ids) && AsSelected(start, p, id) && id !in ids && q == SweepOne(p, id, now, outage)
    ensures PassTold(start, q, if Raises(start.rows[id], outage) then ids else ids + {id})
  {
    if !Raises(start.rows[id], outage) {
      TellsOneMore(p.frames[|start.frames|..], start.rows, ids, id);
      assert q.frames[|start.frames|..] == p.frames[|start.frames|..] + Parties(start.rows[id], id);
    }
  }

  lemma {:induction false} PassTells(start: Pass, batch: seq<MsgId>, now: int, outage: Outage, k: nat, p: Pass)
    requires IsPass(start, batch, now, outage, k, p)
    ensures PassTold(start, p, Removable(start.rows, batch[..k], outage))
  {
    if k == 0 {
      ToldNothing(start.rows);
      assert Removable(start.rows, batch[..0], outage) == {};
    } else {
      var before := LastOfPass(start, batch, now, outage, k, p);
      PassTells(start, batch, now, outage, k - 1, before);
      RemovableSnoc(start.rows, batch, outage, k);
      OneTells(start, before, p, batch[k - 1], now, outage, Removable(start.rows, batch[..k - 1], outage));
    }
  }

  lemma RemovableSnoc(rows: map<MsgId, Row>, batch: seq<MsgId>, outage: Outage, k: nat)
    requires 0 < k <= |batch| && batch[k - 1] in rows
    requires forall i, j | 0 <= i < j < |batch| :: batch[i] != batch[j]
    ensures batch[k - 1] !in Removable(rows, batch[..k - 1], outage)
    ensures Removable(rows, batch[..k], outage) ==
            Removable(rows, batch[..k - 1], outage) + if Raises(rows[batch[k - 1]], outage) then {} else {batch[k - 1]}
  {
    assert batch[..k] == batch[..k - 1] + [batch[k - 1]];
  }

  /** A sweep that breaks off has told all parties of the messages before, and of the next one
      at most the first `sent` that it would have told. */
  ghost predicate ToldPartly(told: seq<(UserId, MsgId)>, rows: map<MsgId, Row>, batch: seq<MsgId>, outage: Outage,
                             fail: Failure)
    requires fail.done <= |batch|
  {
    if fail.done == |batch| || fail.sent.None? then Told(told, rows, Removable(rows, batch[..fail.done], outage))
    else exists before, full :: TellsUpTo(told, rows, batch, outage, fail, before, full)
  }

  ghost predicate TellsUpTo(told: seq<(UserId, MsgId)>, rows: map<MsgId, Row>, batch: seq<MsgId>, outage: Outage,
                            fail: Failure, before: seq<(UserId, MsgId)>, full: seq<(UserId, MsgId)>)
    requires fail.done < |batch| && fail.sent.Some?
  {
    && Told(before, rows, Removable(rows, batch[..fail.done], outage))
    && Told(full, rows, Removable(rows, batch[..fail.done + 1], outage))
    && before <= told <= full && |told| == Min(|before| + fail.sent.value, |full|)
  }

  /** The frames that a message broken off has sent are the first of those it would have sent. */
  lemma BrokenFrames(before: Pass, full: Pass, p: Pass, id: MsgId, now: int, outage: Outage, sent: nat)
    requires id in before.rows && full == SweepOne(before, id, now, outage)
    requires p == Broken(before, id, now, outage, sent)
    ensures before.frames <= p.frames <= full.frames
    ensures |p.frames| == Min(|before.frames| + sent, |full.frames|)
  {}

  lemma SuffixesTell(frames: seq<(UserId, MsgId)>, before: seq<(UserId, MsgId)>, told: seq<(UserId, MsgId)>,
                     full: seq<(UserId, MsgId)>)
    requires frames <= before <= told <= full
    ensures before[|frames|..] <= told[|frames|..] <= full[|frames|..]
  {}

  lemma BrokenParts(start: Pass, batch: seq<MsgId>, now: int, outage: Outage, fail: Failure, p: Pass)
    returns (before: Pass, full: Pass)
    requires fail.done < |batch| && fail.sent.Some? && (forall i | 0 <= i < |batch| :: batch[i] in start.rows)
    requires forall i, j | 0 <= i < j < |batch| :: batch[i] != batch[j]
    requires p == BrokenPass(start, batch, now, outage, fail)
    ensures IsPass(start, batch, now, outage, fail.done, before)
    ensures IsPass(start, batch, now, outage, fail.done + 1, full)
    ensures batch[fail.done] in before.rows && full == SweepOne(before, batch[fail.done], now, outage)
    ensures p == Broken(before, batch[fail.done], now, outage, fail.sent.value)
  {
    before := SweepPass(start, batch, now, outage, fail.done);
    full := SweepPass(start, batch, now, outage, fail.done + 1);
  }

  lemma BrokenTells(start: Pass, batch: seq<MsgId>, now: int, outage: Outage, fail: Failure, p: Pass)
    requires fail.done <= |batch| && (forall i | 0 <= i < |batch| :: batch[i] in start.rows)
    requires forall i, j | 0 <= i < j < |batch| :: batch[i] != batch[j]
    requires p == BrokenPass(start, batch, now, outage, fail)
    ensures start.frames <= p.frames && ToldPartly(p.frames[|start.frames|..], start.rows, batch, outage, fail)
  {
    if fail.done < |batch| && fail.sent.Some? {
      var before, full := BrokenParts(start, batch, now, outage, fail, p);
      PassTells(start, batch, now, outage, fail.done, before);
      PassTells(start, batch, now, outage, fail.done + 1, full);
      BrokenFrames(before, full, p, batch[fail.done], now, outage, fail.sent.value);
      ToldUpTo(start.frames, before.frames, full.frames, p.frames, start.rows, batch, outage, fail);
    } else {
      PassTells(start, batch, now, outage, fail.done, p);
    }
  }

  lemma ToldUpTo(frames: seq<(UserId, MsgId)>, before: seq<(UserId, MsgId)>, full: seq<(UserId, MsgId)>,
                 sent: seq<(UserId, MsgId)>, rows: map<MsgId, Row>, batch: seq<MsgId>, outage: Outage, fail: Failure)
    requires fail.done < |batch| && fail.sent.Some? && frames <= before <= sent <= full
    requires Told(before[|frames|..], rows, Removable(rows, batch[..fail.done], outage))
    requires Told(full[|frames|..], rows, Removable(rows, batch[..fail.done + 1], outage))
    requires |sent| == Min(|before| + fail.sent.value, |full|)
    ensures frames <= sent && ToldPartly(sent[|frames|..], rows, batch, outage, fail)
  {
    SuffixesTell(frames, before, sent, full);
    assert TellsUpTo(sent[|frames|..], rows, batch, outage, fail, before[|frames|..], full[|frames|..]);
  }

  class SelfDestructWorker {
    const store: MessageStore
    const storage: StorageService
    var audits: seq<Audit>
    var frames: seq<(UserId, MsgId)>

    constructor (store: MessageStore, storage: StorageService)
      ensures this.store == store && this.storage == storage && audits == [] && frames == []
    {
      this.store := store;
      this.storage := storage;
      audits, frames := [], [];
    }

    /** `batch` is what the query returned; `fail` is None for a sweep that commits, or says
        where an exception is raised (by a publish, or by the commit).  Removed objects and
        published frames survive a rollback; rows and audits do not. */
    method SweepOnce(now: int, batch: seq<MsgId>, outage: Outage, fail: Option<Failure>) returns (wiped: Option<nat>)
      requires IsBatch(store.rows, now, batch)
      requires fail.Some? ==> fail.value.done <= |batch|
      modifies this, store, storage
      ensures wiped.Some? <==> fail.None?
      ensures var start := Pass(old(store.rows), old(storage.objects), [], old(frames));
              var p := if fail.Some? then BrokenPass(start, batch, now, outage, fail.value)
                       else SweepPass(start, batch, now, outage, |batch|);
              && storage.objects == p.objects && frames == p.frames
              && store.rows == (if fail.None? then p.rows else start.rows)
              && audits == (if fail.None? then old(audits) + p.audits else old(audits))
              && (wiped.Some? ==> wiped.value == |p.audits|)
      // Who is told: both parties of every message whose media could be removed, or of those the
      // sweep came to.
      ensures old(frames) <= frames
      ensures fail.None? ==> Told(frames[|old(frames)|..], old(store.rows), Removable(old(store.rows), batch, outage))
      ensures fail.Some? ==> ToldPartly(frames[|old(frames)|..], old(store.rows), batch, outage, fail.value)
    {
      ghost var start := Pass(store.rows, storage.objects, [], frames);
      BatchInRows(store.rows, now, batch);
      if fail.Some? {
        BrokenTells(start, batch, now, outage, fail.value, BrokenPass(start, batch, now, outage, fail.value));
      } else {
        PassTells(start, batch, now, outage, |batch|, SweepPass(start, batch, now, outage, |batch|));
        assert batch[..|batch|] == batch;
      }
      var done := if fail.Some? then fail.value.done else |batch|;
      var session, pending := SweepBatch(store.rows, now, batch, outage, done);
      if fail.Some? {
        if fail.value.done < |batch| && fail.value.sent.Some? {
          BreakOff(session, batch[fail.value.done], outage, fail.value.sent.value);
        }
        return None;
      }
      store.rows := session;
      audits := audits + pending;
      return Some(|pending|);
    }

    /** The loop body as far as an exception in one of its publishes lets it come. */
    method BreakOff(session: map<MsgId, Row>, id: MsgId, outage: Outage, sent: nat)
      requires id in session
      modifies this`frames, storage
      ensures forall now, pending :: Pass(session, storage.objects, pending, frames) ==
                                     Broken(Pass(session, old(storage.objects), pending, old(frames)), id, now, outage,
                                            sent)
      ensures var msg := session[id];
              var parties := (if msg.recipient.Some? then [(msg.recipient.value, id)] else []) + [(msg.sender, id)];
              frames == old(frames) + if Raises(msg, outage) then [] else parties[..Min(sent, |parties|)]
    {
      var msg := session[id];
      if msg.mediaKey.Some? && msg.mediaKey.value != "" {
        var removed := storage.DeleteObject(Named(msg.mediaKey.value), outage);
        if !removed {
          return;
        }
      }
      var parties := Parties(msg, id);
      frames := frames + parties[..Min(sent, |parties|)];
    }

    /** The loop over the first `k` messages. */
    method SweepBatch(rows: map<MsgId, Row>, now: int, batch: seq<MsgId>, outage: Outage, k: nat)
      returns (session: map<MsgId, Row>, pending: seq<Audit>)
      requires k <= |batch| && forall i | 0 <= i < |batch| :: batch[i] in rows
      modifies this`frames, storage
      ensures Pass(session, storage.objects, pending, frames) ==
              SweepPass(Pass(rows, old(storage.objects), [], old(frames)), batch, now, outage, k)
      ensures (forall i, j | 0 <= i < j < |batch| :: batch[i] != batch[j]) ==>
                old(frames) <= frames && Told(frames[|old(frames)|..], rows, Removable(rows, batch[..k], outage))
    {
      session, pending := rows, [];
      for i := 0 to k
        invariant Pass(session, storage.objects, pending, frames) ==
                  SweepPass(Pass(rows, old(storage.objects), [], old(frames)), batch, now, outage, i)
      {
        session, pending := SweepMessage(session, pending, batch[i], now, outage);
      }
      ghost var start := Pass(rows, old(storage.objects), [], old(frames));
      if forall i, j | 0 <= i < j < |batch| :: batch[i] != batch[j] {
        PassTells(start, batch, now, outage, k, Pass(session, storage.objects, pending, frames));
      }
    }

    /** The loop body: remove the media, then wipe, audit and announce, or leave the message
        queued if the removal raised. */
    method SweepMessage(session: map<MsgId, Row>, pending: seq<Audit>, id: MsgId, now: int, outage: Outage)
      returns (session': map<MsgId, Row>, pending': seq<Audit>)
      requires id in session
      modifies this`frames, storage
      ensures Pass(session', storage.objects, pending', frames) ==
              SweepOne(Pass(session, old(storage.objects), pending, old(frames)), id, now, outage)
      ensures var msg := session[id];
              if Raises(msg, outage) then session' == session && pending' == pending && frames == old(frames)
              else
                && session' == session[id := msg.(content := None, mediaKey := None, mediaMime := None,
                                                  destructed := true, deletedAt := Some(now))]
                && pending' == pending + [Audit(id, false)]
                && frames == old(frames) + (if msg.recipient.Some? then [(msg.recipient.value, id)] else []) +
                             [(msg.sender, id)]
      ensures var media := if session[id].mediaKey.Some? && session[id].mediaKey.value != ""
                           then {Named(session[id].mediaKey.value)} else {};
              storage.objects == old(storage.objects) - if media !! outage.raises then media else media * outage.lost
    {
      session', pending' := session, pending;
      var msg := session[id];
      if msg.mediaKey.Some? && msg.mediaKey.value != "" {
        var removed := storage.DeleteObject(Named(msg.mediaKey.value), outage);
        if !removed {
          return;
        }
      }
      session' := session[id := WipedRow(msg, now)];
      pending' := pending + [Audit(id, session'[id].mediaKey.Some?)];
      if msg.recipient.Some? {
        frames := frames + [(msg.recipient.value, id)];
      }
      frames := frames + [(msg.sender, id)];
    }
  }
}
