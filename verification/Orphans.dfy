/** When a message's media object is left in the store for good: exactly when the message was
    unsent while the object was stored. */
module Orphans {
  import opened Common
  import opened Storage
  import opened Messages
  import opened SelfDestruct
  import opened Retention

  /** The object is stored, and no row points to it. */
  ghost predicate Orphan(w: World, name: string) {
    Named(name) in w.objects && forall id | id in w.rows :: w.rows[id].mediaKey != Some(name)
  }

  /** The step saves no message with this media name. */
  ghost predicate Unmentioned(w: World, step: Step, name: string) {
    forall id | id in Next(w, step).rows && id !in w.rows :: Next(w, step).rows[id].mediaKey != Some(name)
  }

  ghost predicate PassLeaves(p: Pass, name: string) {
    Named(name) in p.objects && forall id | id in p.rows :: p.rows[id].mediaKey != Some(name)
  }

  lemma StepLeaves(p: Pass, id: MsgId, now: int, outage: Outage, q: Pass, name: string)
    requires PassLeaves(p, name) && id in p.rows && q == SweepOne(p, id, now, outage)
    ensures PassLeaves(q, name)
  {}

  lemma {:induction false} SweepLeavesOrphan(start: Pass, batch: seq<MsgId>, now: int, outage: Outage, k: nat,
                                             name: string)
    requires PassLeaves(start, name) && k <= |batch| && forall i | 0 <= i < |batch| :: batch[i] in start.rows
    ensures PassLeaves(SweepPass(start, batch, now, outage, k), name)
  {
    if k > 0 {
      var p := SweepPass(start, batch, now, outage, k - 1);
      SweepLeavesOrphan(start, batch, now, outage, k - 1, name);
      StepLeaves(p, batch[k - 1], now, outage, SweepPass(start, batch, now, outage, k), name);
    }
  }

  /** The sweep takes effect. */
  ghost predicate Sweeps(w: World, step: Step) {
    && step.Sweep? && IsBatch(w.rows, w.now, step.batch)
    && !(step.fail.Some? && step.fail.value.done > |step.batch|)
  }

  lemma StepKeepsOrphan(w: World, step: Step, name: string)
    requires Orphan(w, name) && Unmentioned(w, step, name)
    ensures Orphan(Next(w, step), name)
  {
    if Sweeps(w, step) { SweepKeepsOrphan(w, step, name); }
  }

  lemma SweepKeepsOrphan(w: World, step: Step, name: string)
    requires Orphan(w, name) && Sweeps(w, step)
    ensures Orphan(Next(w, step), name)
  {
    var k: nat := if step.fail.Some? then step.fail.value.done else |step.batch|;
    BatchInRows(w.rows, w.now, step.batch);
    SweepLeavesOrphan(StartPass(w), step.batch, w.now, step.outage, k, name);
  }

  lemma RunPrefix(steps: seq<Step>, j: nat)
    requires j < |steps|
    ensures Run(steps[..j + 1]) == Next(Run(steps[..j]), steps[j])
  {
    assert steps[..j + 1][..j] == steps[..j];
  }

  ghost predicate UnmentionedAt(steps: seq<Step>, j: nat, name: string) {
    j < |steps| && Unmentioned(Run(steps[..j]), steps[j], name)
  }

  lemma {:induction false} OrphanUntil(steps: seq<Step>, k: nat, j: nat, name: string)
    requires k <= j <= |steps| && Orphan(Run(steps[..k]), name)
    requires forall i: nat | k <= i < |steps| :: UnmentionedAt(steps, i, name)
    ensures Orphan(Run(steps[..j]), name)
  {
    if k < j {
      OrphanUntil(steps, k, j - 1, name);
      assert UnmentionedAt(steps, j - 1, name);
      RunPrefix(steps, j - 1);
      StepKeepsOrphan(Run(steps[..j - 1]), steps[j - 1], name);
    }
  }

  /** Nothing ever removes an object that no row points to, as long as no message is saved
      with its name. */
  lemma OrphansStay(steps: seq<Step>, k: nat, name: string)
    requires k <= |steps| && Orphan(Run(steps[..k]), name)
    requires forall j: nat | k <= j < |steps| :: UnmentionedAt(steps, j, name)
    ensures Orphan(Run(steps), name)
  {
    OrphanUntil(steps, k, |steps|, name);
    assert steps[..|steps|] == steps;
  }

  /** Step `k` is an unsend of the message that succeeds. */
  ghost predicate Unsends(steps: seq<Step>, k: nat, id: MsgId) {
    && k < |steps| && steps[k].Unsend? && steps[k].id == id
    && var w := Run(steps[..k]);
       id in w.rows && MayUnsend(w.rows[id], steps[k].user, w.now)
  }

  /** A message unsent while its media object is stored, if no other message then points to the
      object or is saved with its name later, leaves the object behind in every continuation. */
  lemma UnsendOrphans(steps: seq<Step>, k: nat, id: MsgId, name: string)
    requires Unsends(steps, k, id) && Named(name) in Run(steps[..k]).objects
    requires forall j | j in Run(steps[..k]).rows && j != id :: Run(steps[..k]).rows[j].mediaKey != Some(name)
    requires forall j | k < j < |steps| && steps[j].Save? :: steps[j].draft.mediaKey != Some(name)
    ensures Named(name) in Run(steps).objects
  {
    assert steps[..k + 1][..k] == steps[..k];
    forall j: nat | k + 1 <= j < |steps| ensures UnmentionedAt(steps, j, name) {
      OnlySaveAdds(Run(steps[..j]), steps[j]);
    }
    OrphansStay(steps, k + 1, name);
  }

  lemma OnlySaveAdds(w: World, step: Step)
    ensures forall id | id in Next(w, step).rows && id !in w.rows ::
              step.Save? && id == step.id && Next(w, step).rows[id].mediaKey == step.draft.mediaKey
  {
  }

  // ---------------------------------------------------------------- exactly

  /** No other message was ever saved with this name. */
  ghost predicate Unshared(w: World, id: MsgId, name: string) {
    forall j | j in w.saved && j != id :: w.saved[j] != Some(name)
  }

  lemma SavedStays(w: World, step: Step)
    requires Inv(w)
    ensures forall id | id in w.saved :: id in Next(w, step).saved && Next(w, step).saved[id] == w.saved[id]
    ensures w.drawn <= Next(w, step).drawn
  {
  }

  lemma {:induction false} UnsharedBefore(steps: seq<Step>, k: nat, id: MsgId, name: string)
    requires k <= |steps| && Unshared(Run(steps), id, name)
    ensures Unshared(Run(steps[..k]), id, name)
  {
    if k == |steps| {
      assert steps[..k] == steps;
    } else {
      var front := steps[..|steps| - 1];
      RunKeepsInv(front);
      SavedStays(Run(front), steps[|steps| - 1]);
      UnsharedBefore(front, k, id, name);
      assert front[..k] == steps[..k];
    }
  }

  /** A name that has been drawn is never stored anew. */
  lemma NotStoredAgain(w: World, step: Step, name: string)
    requires Inv(w) && name in w.drawn && Named(name) in Next(w, step).objects
    ensures Named(name) in w.objects
  {
    if Sweeps(w, step) { SweepOnlyRemoves(w, step); }
  }

  lemma SweepOnlyRemoves(w: World, step: Step)
    requires Sweeps(w, step)
    ensures Next(w, step).objects.Keys <= w.objects.Keys
  {
    var k: nat := if step.fail.Some? then step.fail.value.done else |step.batch|;
    BatchInRows(w.rows, w.now, step.batch);
    ObjectsOnlyGo(StartPass(w), step.batch, w.now, step.outage, k);
  }

  ghost predicate UnsentWhileStored(steps: seq<Step>, k: nat, id: MsgId, name: string) {
    Unsends(steps, k, id) && Named(name) in Run(steps[..k]).objects
  }

  /** Only an unsend sets the tombstone. */
  lemma TombstoneNeedsUnsend(w: World, step: Step, id: MsgId)
    requires Inv(w) && id in Next(w, step).rows && Next(w, step).rows[id].deletedForEveryone
    requires !(id in w.rows && w.rows[id].deletedForEveryone)
    ensures step.Unsend? && step.id == id && id in w.rows && MayUnsend(w.rows[id], step.user, w.now)
  {
    if step.Sweep? && IsBatch(w.rows, w.now, step.batch) && step.fail.None? {
      SweepKeepsTombstones(w, step.batch, step.outage, id);
    }
  }

  lemma SweepKeepsTombstones(w: World, batch: seq<MsgId>, outage: Outage, id: MsgId)
    requires IsBatch(w.rows, w.now, batch) && id in w.rows
    ensures forall i | 0 <= i < |batch| :: batch[i] in w.rows
    ensures SweepPass(StartPass(w), batch, w.now, outage, |batch|).rows[id].deletedForEveryone ==
              w.rows[id].deletedForEveryone
  {
    BatchInRows(w.rows, w.now, batch);
    if id in batch {
      var i: nat :| i < |batch| && batch[i] == id;
      WipedExactly(StartPass(w), batch, w.now, outage, |batch|, i);
    } else {
      SweepPassFrame(StartPass(w), batch, w.now, outage, |batch|, id);
    }
  }

  lemma {:induction false} StoredTombstone(steps: seq<Step>, id: MsgId, name: string) returns (k: nat)
    requires id in Run(steps).rows && Run(steps).rows[id].deletedForEveryone
    requires id in Run(steps).saved && Run(steps).saved[id] == Some(name) && Named(name) in Run(steps).objects
    ensures UnsentWhileStored(steps, k, id, name)
  {
    var n := |steps| - 1;
    var front := steps[..n];
    var w := Run(front);
    RunKeepsInv(front);
    if id in w.rows && w.rows[id].deletedForEveryone {
      SavedStays(w, steps[n]);
      NotStoredAgain(w, steps[n], name);
      k := StoredTombstone(front, id, name);
      assert front[..k] == steps[..k];
    } else {
      TombstoneNeedsUnsend(w, steps[n], id);
      k := n;
    }
  }

  /** A destructed message with a media name of its own has left its object behind if and only
      if it was unsent while the object was stored. */
  lemma OrphanedExactly(steps: seq<Step>, id: MsgId, name: string)
    requires id in Run(steps).rows && Run(steps).rows[id].destructed
    requires id in Run(steps).saved && Run(steps).saved[id] == Some(name) && name != ""
    requires Unshared(Run(steps), id, name)
    ensures Named(name) in Run(steps).objects <==> exists k: nat :: UnsentWhileStored(steps, k, id, name)
  {
    RunKeepsInv(steps);
    var w := Run(steps);
    assert NoOrphan(w.rows[id], w.saved[id], w.objects);
    if Named(name) in w.objects {
      var k := StoredTombstone(steps, id, name);
    }
    if k: nat :| UnsentWhileStored(steps, k, id, name) {
      UnsentIsOrphan(steps, k, id, name);
      forall j: nat | k + 1 <= j < |steps| ensures UnmentionedAt(steps, j, name) {
        UnmentionedOf(steps, j, k + 1, id, name);
      }
      OrphansStay(steps, k + 1, name);
    }
  }

  lemma UnsentIsOrphan(steps: seq<Step>, k: nat, id: MsgId, name: string)
    requires UnsentWhileStored(steps, k, id, name) && Unshared(Run(steps), id, name)
    ensures Orphan(Run(steps[..k + 1]), name) && id in Run(steps[..k + 1]).rows
  {
    assert steps[..k + 1][..k] == steps[..k];
    RunKeepsInv(steps[..k]);
    UnsharedBefore(steps, k, id, name);
    var w := Run(steps[..k]);
    forall j | j in w.rows && j != id ensures w.rows[j].mediaKey != Some(name) {
      assert RowOk(w.rows[j], w.now, w.saved[j]);
    }
  }

  lemma UnmentionedOf(steps: seq<Step>, j: nat, from: nat, id: MsgId, name: string)
    requires from <= j < |steps| && Unshared(Run(steps), id, name) && id in Run(steps[..from]).rows
    ensures Unmentioned(Run(steps[..j]), steps[j], name)
  {
    UnsharedBefore(steps, j + 1, id, name);
    RunKeepsInv(steps[..j + 1]);
    OthersAvoid(Run(steps[..j + 1]), id, name);
    RowStays(steps, from, j, id);
    RunPrefix(steps, j);
  }

  lemma RowStays(steps: seq<Step>, from: nat, j: nat, id: MsgId)
    requires from <= j <= |steps| && id in Run(steps[..from]).rows
    ensures id in Run(steps[..j]).rows
  {
    assert steps[..j][..from] == steps[..from];
    RowsOnlyMoveOn(steps[..j], from);
  }

  lemma OthersAvoid(w: World, id: MsgId, name: string)
    requires Inv(w) && Unshared(w, id, name)
    ensures forall i | i in w.rows && i != id :: w.rows[i].mediaKey != Some(name)
  {
    forall i | i in w.rows && i != id ensures w.rows[i].mediaKey != Some(name) {
      assert RowOk(w.rows[i], w.now, w.saved[i]);
    }
  }
}
