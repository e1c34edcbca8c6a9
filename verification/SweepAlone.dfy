/** The open sweep of SweepRaces, when nothing interleaves with it, is the one-step sweep. */
module SweepAlone {
  import opened Common
  import opened Storage
  import opened Messages
  import opened SelfDestruct
  import opened Retention
  import opened SweepRaces

  /** The open sweep after `k` messages. */
  ghost function Alone(s: Sys, batch: seq<MsgId>, outage: Outage, k: nat): Sys {
    if k == 0 then SweepRaces.Next(s, Query(batch))
    else SweepRaces.Next(Alone(s, batch, outage, k - 1), Process(outage))
  }

  /** Which of the first `k` messages are to be wiped. */
  function WipedOf(rows: map<MsgId, Row>, batch: seq<MsgId>, outage: Outage, k: nat): seq<MsgId>
    requires k <= |batch| && forall i | 0 <= i < |batch| :: batch[i] in rows
  {
    if k == 0 then []
    else WipedOf(rows, batch, outage, k - 1) + if Fails(rows[batch[k - 1]], outage) then [] else [batch[k - 1]]
  }

  predicate Proper(rows: map<MsgId, Row>, batch: seq<MsgId>) {
    && (forall i | 0 <= i < |batch| :: batch[i] in rows)
    && (forall i, j | 0 <= i < j < |batch| :: batch[i] != batch[j])
  }

  /** One removal inside the open sweep and one step of the fold. */
  lemma ProcessedIs(w: World, p: Pass, q: Pass, now: int, batch: seq<MsgId>, read: map<MsgId, Row>, wiped: seq<MsgId>,
                    k: nat, outage: Outage, from: nat)
    requires 1 <= k <= |batch| && batch[k - 1] in read && batch[k - 1] in p.rows
             && p.rows[batch[k - 1]] == read[batch[k - 1]]
    requires q == SweepOne(p, batch[k - 1], now, outage)
    ensures var more := wiped + if Fails(read[batch[k - 1]], outage) then [] else [batch[k - 1]];
            var open := Sys(w.(objects := p.objects, frames := p.frames),
                            Some(Session(now, read, batch[k - 1..], wiped, from)));
            SweepRaces.Next(open, Process(outage)) ==
              Sys(w.(objects := q.objects, frames := q.frames), Some(Session(now, read, batch[k..], more, from)))
  {
    assert batch[k - 1..][1..] == batch[k..] && batch[k - 1..][0] == batch[k - 1];
    assert wiped + [] == wiped;
  }

  lemma {:induction false} AloneIs(s: Sys, batch: seq<MsgId>, outage: Outage, k: nat, p: Pass)
    requires SweepRaces.Next(s, Query(batch)) ==
               Sys(s.world, Some(Session(s.world.now, s.world.rows, batch, [], |s.world.frames|)))
    requires k <= |batch| && Proper(s.world.rows, batch)
    requires p == SweepPass(StartPass(s.world), batch, s.world.now, outage, k)
    ensures Alone(s, batch, outage, k) ==
              Sys(s.world.(objects := p.objects, frames := p.frames),
                  Some(Session(s.world.now, s.world.rows, batch[k..], WipedOf(s.world.rows, batch, outage, k),
                               |s.world.frames|)))
  {
    if k == 0 {
      assert batch[0..] == batch;
    } else {
      var q := SweepPass(StartPass(s.world), batch, s.world.now, outage, k - 1);
      AloneIs(s, batch, outage, k - 1, q);
      SweepPassFrame(StartPass(s.world), batch, s.world.now, outage, k - 1, batch[k - 1]);
      ProcessedIs(s.world, q, p, s.world.now, batch, s.world.rows, WipedOf(s.world.rows, batch, outage, k - 1), k,
                  outage, |s.world.frames|);
    }
  }

  /** The fold's rows and audit rows are those of the open sweep's commit. */
  predicate Matches(rows: map<MsgId, Row>, p: Pass, wiped: seq<MsgId>, now: int) {
    p.audits == AuditsOf(wiped) && p.rows == Merged(rows, wiped, now)
  }

  lemma MatchesSnoc(rows: map<MsgId, Row>, q: Pass, p: Pass, id: MsgId, now: int, outage: Outage, before: seq<MsgId>,
                    after: seq<MsgId>)
    requires id in rows && id in q.rows && q.rows[id] == rows[id] && p == SweepOne(q, id, now, outage)
    requires Matches(rows, q, before, now) && after == before + if Fails(rows[id], outage) then [] else [id]
    ensures Matches(rows, p, after, now)
  {
    if Fails(rows[id], outage) {
      assert after == before;
    }
  }

  lemma MatchesNone(w: World)
    ensures Matches(w.rows, StartPass(w), [], w.now)
  {
    assert Merged(w.rows, [], w.now) == w.rows;
  }

  lemma {:induction false} AuditsAlone(w: World, batch: seq<MsgId>, outage: Outage, k: nat, p: Pass, wiped: seq<MsgId>)
    requires IsPass(StartPass(w), batch, w.now, outage, k, p) && wiped == WipedOf(w.rows, batch, outage, k)
    ensures Matches(w.rows, p, wiped, w.now)
  {
    if k == 0 {
      MatchesNone(w);
    } else {
      var before := LastOfPass(StartPass(w), batch, w.now, outage, k, p);
      var fewer := WipedOf(w.rows, batch, outage, k - 1);
      AuditsAlone(w, batch, outage, k - 1, before, fewer);
      MatchesSnoc(w.rows, before, p, batch[k - 1], w.now, outage, fewer, wiped);
    }
  }

  /** A sweep that nothing interleaves with is the one-step sweep. */
  lemma AloneIsSweep(s: Sys, batch: seq<MsgId>, outage: Outage)
    requires s.session.None? && IsBatch(s.world.rows, s.world.now, batch)
    ensures SweepRaces.Next(Alone(s, batch, outage, |batch|), Commit) ==
              Sys(Retention.Next(s.world, Sweep(batch, outage, None)), None)
  {
    BatchInRows(s.world.rows, s.world.now, batch);
    var p := SweepPass(StartPass(s.world), batch, s.world.now, outage, |batch|);
    AloneIs(s, batch, outage, |batch|, p);
    var wiped := WipedOf(s.world.rows, batch, outage, |batch|);
    AuditsAlone(s.world, batch, outage, |batch|, p, wiped);
    SameCommit(s.world, p, batch, wiped, |s.world.frames|);
  }

  lemma SameCommit(w: World, p: Pass, batch: seq<MsgId>, wiped: seq<MsgId>, from: nat)
    requires Matches(w.rows, p, wiped, w.now)
    ensures SweepRaces.Next(Sys(w.(objects := p.objects, frames := p.frames),
                                Some(Session(w.now, w.rows, batch[|batch|..], wiped, from))), Commit) ==
            Sys(Retention.Committed(w, p), None)
  {
  }
}
