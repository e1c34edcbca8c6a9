/** When a message's media object is left in the store for good, with other sessions committing
    between the sweep's query, its removals and its commit. */
module OrphanRaces {
  import opened Common
  import opened Storage
  import opened Messages
  import opened Retention
  import opened Orphans
  import opened SweepRaces

  /** The open sweep comes to a message it has read with this media name, and the store obliges. */
  predicate Takes(s: Sys, move: Move, name: string) {
    && (move.Process? || (move.BreakOff? && move.sent.Some?))
    && s.session.Some? && s.session.value.todo != [] && s.session.value.todo[0] in s.session.value.read
    && s.session.value.read[s.session.value.todo[0]].mediaKey == Some(name)
    && (Named(name) !in move.outage.raises || Named(name) in move.outage.lost)
  }

  /** Move `k` is an unsend of the message that succeeds while the object is stored. */
  ghost predicate UnsentStored(moves: seq<Move>, k: nat, id: MsgId, name: string) {
    && k < |moves| && moves[k].Elsewhere? && moves[k].step.Unsend? && moves[k].step.id == id
    && var w := SweepRaces.Run(moves[..k]).world;
       id in w.rows && MayUnsend(w.rows[id], moves[k].step.user, w.now) && Named(name) in w.objects
  }

  ghost predicate NotTaken(moves: seq<Move>, k: nat, name: string) {
    forall j | k < j < |moves| :: !Takes(SweepRaces.Run(moves[..j]), moves[j], name)
  }

  // ---------------------------------------------------------------- one move

  lemma TakenIsGone(s: Sys, move: Move, name: string)
    requires Takes(s, move, name) && name != ""
    ensures Named(name) !in SweepRaces.Next(s, move).world.objects
  {}

  lemma MoveKeepsOrphan(s: Sys, move: Move, name: string)
    requires Orphan(s.world, name) && !Takes(s, move, name)
    requires forall i | i in SweepRaces.Next(s, move).world.rows && i !in s.world.rows ::
               SweepRaces.Next(s, move).world.rows[i].mediaKey != Some(name)
    ensures Orphan(SweepRaces.Next(s, move).world, name)
  {
    if move.Elsewhere? && !move.step.Sweep? { StepKeepsOrphan(s.world, move.step, name); }
  }

  lemma MoveKeepsSaved(s: Sys, move: Move)
    requires Inv(s.world)
    ensures var t := SweepRaces.Next(s, move);
            forall id | id in s.world.saved :: id in t.world.saved && t.world.saved[id] == s.world.saved[id]
  {
    if move.Elsewhere? { SavedStays(s.world, move.step); }
  }

  lemma NotStoredByMove(s: Sys, move: Move, name: string)
    requires Inv(s.world) && name in s.world.drawn && Named(name) in SweepRaces.Next(s, move).world.objects
    ensures Named(name) in s.world.objects
  {
    if move.Elsewhere? && !move.step.Sweep? { NotStoredAgain(s.world, move.step, name); }
  }

  /** Only an unsend sets the tombstone. */
  lemma TombstoneByUnsend(s: Sys, move: Move, id: MsgId)
    requires Inv(s.world) && id in SweepRaces.Next(s, move).world.rows
    requires SweepRaces.Next(s, move).world.rows[id].deletedForEveryone
    requires !(id in s.world.rows && s.world.rows[id].deletedForEveryone)
    ensures move.Elsewhere? && move.step.Unsend? && move.step.id == id
    ensures id in s.world.rows && MayUnsend(s.world.rows[id], move.step.user, s.world.now)
  {
    if move.Elsewhere? && !move.step.Sweep? { TombstoneNeedsUnsend(s.world, move.step, id); }
  }

  // ---------------------------------------------------------------- whole runs

  lemma RunPrefix(moves: seq<Move>, j: nat)
    requires j < |moves|
    ensures SweepRaces.Run(moves[..j + 1]) == SweepRaces.Next(SweepRaces.Run(moves[..j]), moves[j])
  {
    assert moves[..j + 1][..j] == moves[..j];
  }

  lemma {:induction false} UnsharedBefore(moves: seq<Move>, k: nat, id: MsgId, name: string)
    requires k <= |moves| && Unshared(SweepRaces.Run(moves).world, id, name)
    ensures Unshared(SweepRaces.Run(moves[..k]).world, id, name)
  {
    if k == |moves| {
      assert moves[..k] == moves;
    } else {
      var front := moves[..|moves| - 1];
      RacesKeepInv(front);
      MoveKeepsSaved(SweepRaces.Run(front), moves[|moves| - 1]);
      UnsharedBefore(front, k, id, name);
      assert front[..k] == moves[..k];
    }
  }

  lemma UnsentStays(moves: seq<Move>, n: nat, k: nat, id: MsgId, name: string)
    requires n <= |moves| && UnsentStored(moves[..n], k, id, name)
    ensures UnsentStored(moves, k, id, name)
  {
    assert moves[..n][..k] == moves[..k];
  }

  lemma NotTakenSnoc(moves: seq<Move>, n: nat, k: nat, name: string)
    requires |moves| == n + 1 && NotTaken(moves[..n], k, name)
    requires !Takes(SweepRaces.Run(moves[..n]), moves[n], name)
    ensures NotTaken(moves, k, name)
  {
    forall j | k < j < |moves| ensures !Takes(SweepRaces.Run(moves[..j]), moves[j], name) {
      if j < n { assert moves[..n][..j] == moves[..j] && moves[..n][j] == moves[j]; }
    }
  }

  /** If the object is stored after a move, and the message was saved before it, then it was
      stored before, and not taken. */
  lemma StoredBefore(s: Sys, move: Move, t: Sys, id: MsgId, name: string)
    requires Inv(s.world) && t == SweepRaces.Next(s, move) && id in s.world.rows && id in t.world.saved
    requires t.world.saved[id] == Some(name) && name != "" && Named(name) in t.world.objects
    ensures id in s.world.saved && s.world.saved[id] == Some(name) && Named(name) in s.world.objects
    ensures !Takes(s, move, name)
  {
    MoveKeepsSaved(s, move);
    NotStoredByMove(s, move, name);
    if Takes(s, move, name) { TakenIsGone(s, move, name); }
  }

  ghost predicate Tombstone(s: Sys, id: MsgId) {
    id in s.world.rows && s.world.rows[id].deletedForEveryone
  }

  lemma UnsentLast(s: Sys, move: Move, t: Sys, id: MsgId, name: string)
    requires Inv(s.world) && t == SweepRaces.Next(s, move) && Tombstone(t, id) && !Tombstone(s, id)
    requires Named(name) in t.world.objects && id in t.world.saved && t.world.saved[id] == Some(name)
    ensures move.Elsewhere? && move.step.Unsend? && move.step.id == id && Named(name) in s.world.objects
    ensures id in s.world.rows && MayUnsend(s.world.rows[id], move.step.user, s.world.now)
  {
    TombstoneByUnsend(s, move, id);
    MoveKeepsSaved(s, move);
    NotStoredByMove(s, move, name);
  }

  /** A tombstone whose object is stored goes back to an unsend, and nothing took the object
      since. */
  lemma {:induction false} StoredTombstone(moves: seq<Move>, s: Sys, id: MsgId, name: string) returns (k: nat)
    requires s == SweepRaces.Run(moves) && Tombstone(s, id) && id in s.world.saved && s.world.saved[id] == Some(name)
    requires name != "" && Named(name) in s.world.objects
    ensures UnsentStored(moves, k, id, name) && NotTaken(moves, k, name)
  {
    var n := |moves| - 1;
    var before := SweepRaces.Run(moves[..n]);
    RacesKeepInv(moves[..n]);
    if Tombstone(before, id) {
      StoredBefore(before, moves[n], s, id, name);
      k := StoredTombstone(moves[..n], before, id, name);
      UnsentStays(moves, n, k, id, name);
      NotTakenSnoc(moves, n, k, name);
    } else {
      UnsentLast(before, moves[n], s, id, name);
      k := n;
    }
  }

  lemma UnsendMakesOrphan(s: Sys, step: Step, id: MsgId, name: string)
    requires Inv(s.world) && Unshared(s.world, id, name) && Named(name) in s.world.objects
    requires step.Unsend? && step.id == id && id in s.world.rows && MayUnsend(s.world.rows[id], step.user, s.world.now)
    ensures var t := SweepRaces.Next(s, Elsewhere(step)); Orphan(t.world, name) && id in t.world.rows
  {
    OthersAvoid(s.world, id, name);
  }

  lemma OneMoveMore(s: Sys, move: Move, t: Sys, id: MsgId, name: string)
    requires SysOk(s) && t == SweepRaces.Next(s, move) && Orphan(s.world, name) && id in s.world.rows
    requires !Takes(s, move, name) && Unshared(t.world, id, name)
    ensures Orphan(t.world, name) && id in t.world.rows
  {
    MoveKeepsOk(s, move);
    OthersAvoid(t.world, id, name);
    MoveKeepsOrphan(s, move, name);
  }

  lemma FirstOrphan(moves: seq<Move>, k: nat, id: MsgId, name: string)
    requires UnsentStored(moves, k, id, name) && Unshared(SweepRaces.Run(moves).world, id, name)
    ensures var t := SweepRaces.Run(moves[..k + 1]); Orphan(t.world, name) && id in t.world.rows
  {
    RunPrefix(moves, k);
    RacesKeepInv(moves[..k]);
    UnsharedBefore(moves, k, id, name);
    UnsendMakesOrphan(SweepRaces.Run(moves[..k]), moves[k].step, id, name);
  }

  lemma NextOrphan(moves: seq<Move>, j: nat, id: MsgId, name: string)
    requires j < |moves| && Unshared(SweepRaces.Run(moves).world, id, name)
    requires !Takes(SweepRaces.Run(moves[..j]), moves[j], name)
    requires var s := SweepRaces.Run(moves[..j]); Orphan(s.world, name) && id in s.world.rows
    ensures var t := SweepRaces.Run(moves[..j + 1]); Orphan(t.world, name) && id in t.world.rows
  {
    RunPrefix(moves, j);
    RacesKeepInv(moves[..j]);
    UnsharedBefore(moves, j + 1, id, name);
    OneMoveMore(SweepRaces.Run(moves[..j]), moves[j], SweepRaces.Run(moves[..j + 1]), id, name);
  }

  /** From the unsend on, no row points to the object. */
  lemma {:induction false} StaysOrphan(moves: seq<Move>, k: nat, j: nat, id: MsgId, name: string)
    requires UnsentStored(moves, k, id, name) && NotTaken(moves, k, name) && k < j <= |moves|
    requires Unshared(SweepRaces.Run(moves).world, id, name)
    ensures var t := SweepRaces.Run(moves[..j]); Orphan(t.world, name) && id in t.world.rows
  {
    if j == k + 1 {
      FirstOrphan(moves, k, id, name);
    } else {
      StaysOrphan(moves, k, j - 1, id, name);
      NextOrphan(moves, j - 1, id, name);
    }
  }

  /** Under every interleaving, a destructed message with a media name of its own has left its
      object behind if and only if it was unsent while the object was stored and no sweep that
      had read its media name before took the object since. */
  lemma LeftBehindExactly(moves: seq<Move>, id: MsgId, name: string)
    requires var w := SweepRaces.Run(moves).world;
             && id in w.rows && w.rows[id].destructed && id in w.saved && w.saved[id] == Some(name)
             && name != "" && Unshared(w, id, name)
    ensures Named(name) in SweepRaces.Run(moves).world.objects <==>
              exists k: nat :: UnsentStored(moves, k, id, name) && NotTaken(moves, k, name)
  {
    RacesKeepInv(moves);
    var w := SweepRaces.Run(moves).world;
    assert NoOrphan(w.rows[id], w.saved[id], w.objects);
    if Named(name) in w.objects {
      var k := StoredTombstone(moves, SweepRaces.Run(moves), id, name);
    }
    if k: nat :| UnsentStored(moves, k, id, name) && NotTaken(moves, k, name) {
      StaysOrphan(moves, k, |moves|, id, name);
      assert moves[..|moves|] == moves;
    }
  }
}
