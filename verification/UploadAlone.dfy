/** The interleaved upload handlers of UploadRuns, run with nothing in between. */
module UploadAlone {
  import opened Common
  import opened Slicing
  import opened UploadState
  import opened Storage
  import UploadRuns

  /** The staged objects of one upload, by index. */
  function StagedOf(objects: map<Key, Bytes>, id: string): map<int, Bytes> {
    map k: Key | k in objects && k.Staged? && k.upload == id :: k.index := objects[k]
  }

  lemma StagedPut(objects: map<Key, Bytes>, id: string, index: int, data: Bytes)
    ensures StagedOf(objects[Staged(id, index) := data], id) == StagedOf(objects, id)[index := data]
  {}

  lemma StagedCleared(objects: map<Key, Bytes>, id: string, n: nat)
    ensures StagedOf(objects - StagedKeys(id, n), id) == StagedOf(objects, id) - Indices(n)
  {
    var left := StagedOf(objects - StagedKeys(id, n), id);
    forall i ensures i in left <==> i in StagedOf(objects, id) && i !in Indices(n) {
      assert Staged(id, i) in StagedKeys(id, n) <==> i in Indices(n);
    }
  }

  lemma StagedNamed(objects: map<Key, Bytes>, id: string, name: string, data: Bytes)
    ensures StagedOf(objects[Named(name) := data], id) == StagedOf(objects, id)
  {}

  /** A handler alone, for the given number of its calls. */
  function ChunkAlone(now: int, slot: Slot, user: string, index: int, data: Bytes, calls: nat): Slot {
    var open := UploadRuns.Next(UploadRuns.Sys(now, slot, map[], false, []),
                                UploadRuns.OpenChunk(0, user, index, data));
    Advanced(open, calls).slot
  }

  function Advanced(s: UploadRuns.Sys, calls: nat): UploadRuns.Sys {
    if calls == 0 then s else UploadRuns.Next(Advanced(s, calls - 1), UploadRuns.Advance(0))
  }

  /** The writes of an accepted chunk request: PUT, SADD, EXPIRE. */
  function Written(now: int, slot: Slot, index: int, data: Bytes, calls: nat): Slot {
    var staged := slot.(staged := slot.staged[index := data]);
    var marked := staged.(marks := staged.marks.Add(now, index));
    if calls == 0 then slot
    else if calls == 1 then staged
    else if calls == 2 then marked
    else marked.(marks := marked.marks.Expire(now, UPLOAD_STATE_TTL))
  }

  lemma {:induction false} RefusedAlone(s: UploadRuns.Sys, calls: nat)
    requires 0 !in s.handlers
    ensures Advanced(s, calls) == s
  {
    if calls > 0 {
      RefusedAlone(s, calls - 1);
    }
  }

  /** The three calls of an accepted chunk request, spelled out. */
  lemma {:induction false} ThreeCalls(s: UploadRuns.Sys, index: int, data: Bytes, calls: nat)
    requires s.handlers == map[0 := UploadRuns.PutChunk(index, data)]
    ensures Advanced(s, calls).slot == Written(s.now, s.slot, index, data, calls)
  {
    var one := Advanced(s, 1);
    var two := Advanced(s, 2);
    assert Advanced(s, 0) == s;
    assert one == UploadRuns.Next(s, UploadRuns.Advance(0));
    assert two == UploadRuns.Next(one, UploadRuns.Advance(0));
    if calls >= 3 {
      var three := UploadRuns.Next(two, UploadRuns.Advance(0));
      assert Advanced(s, 3) == three;
      assert 0 !in three.handlers;
      AfterThree(s, calls);
    }
  }

  lemma {:induction false} AfterThree(s: UploadRuns.Sys, calls: nat)
    requires calls >= 3 && 0 !in Advanced(s, 3).handlers
    ensures Advanced(s, calls) == Advanced(s, 3)
  {
    if calls > 3 {
      AfterThree(s, calls - 1);
    }
  }

  /** A refused request changes nothing; an accepted one makes its writes. */
  lemma ChunkAloneIs(now: int, slot: Slot, user: string, index: int, data: Bytes, calls: nat)
    ensures ChunkAlone(now, slot, user, index, data, calls) ==
            if ChunkRefusal(slot, now, user, index, data).Some? then slot else Written(now, slot, index, data, calls)
  {
    var open := UploadRuns.Next(UploadRuns.Sys(now, slot, map[], false, []),
                                UploadRuns.OpenChunk(0, user, index, data));
    if ChunkRefusal(slot, now, user, index, data).Some? {
      RefusedAlone(open, calls);
    } else {
      ThreeCalls(open, index, data, calls);
    }
  }

  /** The members of a set that has not run out. */
  function Alive(m: MarkSet, now: int): set<int> {
    if m.expiry.Some? && m.expiry.value <= now then {} else m.members
  }

  lemma CallsWrite(now: int, slot: Slot, index: int, data: Bytes, calls: nat)
    ensures var t := Written(now, slot, index, data, calls);
            && t.state == slot.state
            && t.staged == (if calls == 0 then slot.staged else slot.staged[index := data])
            && Alive(t.marks, now) == Alive(slot.marks, now) + (if calls < 2 then {} else {index})
            && (calls >= 3 ==> t.marks.expiry == Some(now + 24 * 3600))
  {}

  /** A chunk request of the user who began the upload, while it is alive, stages the chunk, then
      counts it, then renews the set for a day, as far as its calls go; any other changes nothing. */
  lemma ChunkAloneExactly(now: int, slot: Slot, user: string, index: int, data: Bytes, calls: nat)
    ensures var t := ChunkAlone(now, slot, user, index, data, calls);
            if slot.state.Present? && now < slot.state.expiry && slot.state.meta.userId == user
               && 0 <= index < slot.state.meta.totalChunks && 0 < |data| <= 5 * 1024 * 1024
            then
              && t.state == slot.state
              && t.staged == (if calls == 0 then slot.staged else slot.staged[index := data])
              && Alive(t.marks, now) == Alive(slot.marks, now) + (if calls < 2 then {} else {index})
              && (calls >= 3 ==> t.marks.expiry == Some(now + 24 * 3600))
            else t == slot
  {
    ChunkAloneIs(now, slot, user, index, data, calls);
    CallsWrite(now, slot, index, data, calls);
  }

  // ---------------------------------------------------------------- a completion alone

  /** The handler's calls lead from one state to the other, nothing in between. */
  ghost predicate Leads(s: UploadRuns.Sys, t: UploadRuns.Sys) {
    exists calls: nat :: Advanced(s, calls) == t
  }

  lemma Here(s: UploadRuns.Sys)
    ensures Leads(s, s)
  {
    assert Advanced(s, 0) == s;
  }

  lemma OneCall(s: UploadRuns.Sys, t: UploadRuns.Sys, u: UploadRuns.Sys)
    requires Leads(s, t) && u == UploadRuns.Next(t, UploadRuns.Advance(0))
    ensures Leads(s, u)
  {
    var calls: nat :| Advanced(s, calls) == t;
    assert Advanced(s, calls + 1) == u;
  }

  function Opened(now: int, slot: Slot, user: string): UploadRuns.Sys {
    UploadRuns.Next(UploadRuns.Sys(now, slot, map[], false, []), UploadRuns.OpenComplete(0, user))
  }

  /** Run alone, the completion ends with this slot and with these byte strings stored. */
  ghost predicate FinishesAlone(now: int, before: Slot, user: string, after: Slot, accepted: seq<Bytes>) {
    exists end :: Leads(Opened(now, before, user), end) && Ended(end, after, accepted)
  }

  predicate Ended(s: UploadRuns.Sys, after: Slot, accepted: seq<Bytes>) {
    s.handlers == map[] && s.slot == after && s.accepted == accepted
  }

  function At(now: int, slot: Slot, handler: UploadRuns.Handler): UploadRuns.Sys {
    UploadRuns.Sys(now, slot, map[0 := handler], false, [])
  }

  lemma ListsAlone(now: int, slot: Slot, user: string, meta: Meta)
    requires slot.state.Load(now, user) == Some(meta) && Missing(slot.marks.Live(now), meta.totalChunks) == {}
    ensures Leads(Opened(now, slot, user), At(now, slot, UploadRuns.Checked(meta, [])))
  {
    var open := Opened(now, slot, user);
    assert open == At(now, slot, UploadRuns.ListMarks(meta));
    Here(open);
    OneCall(open, open, At(now, slot, UploadRuns.Checked(meta, [])));
  }

  lemma RefusedAtOnce(now: int, slot: Slot, user: string)
    requires var meta := slot.state.Load(now, user);
             meta.None? || Missing(slot.marks.Live(now), meta.value.totalChunks) != {}
    ensures FinishesAlone(now, slot, user, slot, [])
  {
    var open := Opened(now, slot, user);
    Here(open);
    if slot.state.Load(now, user).None? {
      assert Ended(open, slot, []);
    } else {
      var end := UploadRuns.Next(open, UploadRuns.Advance(0));
      OneCall(open, open, end);
      assert Ended(end, slot, []);
    }
  }

  lemma ReadsNext(now: int, slot: Slot, open: UploadRuns.Sys, meta: Meta, parts: seq<Bytes>)
    requires |parts| < meta.totalChunks && |parts| in slot.staged
    requires Leads(open, At(now, slot, UploadRuns.Checked(meta, parts)))
    ensures Leads(open, At(now, slot, UploadRuns.Checked(meta, parts + [slot.staged[|parts|]])))
  {
    OneCall(open, At(now, slot, UploadRuns.ReadChunk(meta, parts)),
            At(now, slot, UploadRuns.Checked(meta, parts + [slot.staged[|parts|]])));
  }

  /** What the handler holds once it has read the first `k` chunks. */
  lemma {:induction false} ReadsAlone(now: int, slot: Slot, open: UploadRuns.Sys, meta: Meta, objects: map<Key, Bytes>,
                                      id: string, k: nat)
    requires slot.staged == StagedOf(objects, id) && AllStaged(objects, id, k) && k <= meta.totalChunks
    requires Leads(open, At(now, slot, UploadRuns.Checked(meta, [])))
    ensures Leads(open, At(now, slot, UploadRuns.Checked(meta, StagedParts(objects, id, k))))
  {
    if k == 0 {
      assert StagedParts(objects, id, 0) == [];
    } else {
      ReadsAlone(now, slot, open, meta, objects, id, k - 1);
      var parts := StagedParts(objects, id, k - 1);
      assert Staged(id, k - 1) in objects && slot.staged[k - 1] == objects[Staged(id, k - 1)];
      assert StagedParts(objects, id, k) == parts + [slot.staged[k - 1]];
      ReadsNext(now, slot, open, meta, parts);
    }
  }

  lemma {:induction false} FirstNotStaged(objects: map<Key, Bytes>, id: string, n: nat) returns (k: nat)
    requires !AllStaged(objects, id, n)
    ensures k < n && AllStaged(objects, id, k) && Staged(id, k) !in objects
  {
    if AllStaged(objects, id, n - 1) {
      k := n - 1;
    } else {
      k := FirstNotStaged(objects, id, n - 1);
    }
  }

  lemma FailedRead(now: int, slot: Slot, meta: Meta, parts: seq<Bytes>)
    requires |parts| !in slot.staged
    ensures UploadRuns.Next(At(now, slot, UploadRuns.ReadChunk(meta, parts)), UploadRuns.Advance(0)) ==
              UploadRuns.Sys(now, slot, map[], false, [])
  {
    assert map[0 := UploadRuns.ReadChunk(meta, parts)] - {0} == map[];
  }

  lemma NotStaged(objects: map<Key, Bytes>, id: string, k: nat)
    requires Staged(id, k) !in objects
    ensures k !in StagedOf(objects, id)
  {}

  lemma PartsCount(objects: map<Key, Bytes>, id: string, k: nat)
    requires AllStaged(objects, id, k)
    ensures |StagedParts(objects, id, k)| == k
  {}

  /** A chunk that is counted but not staged fails the read, and the handler with it. */
  lemma ReadFails(now: int, slot: Slot, user: string, meta: Meta, objects: map<Key, Bytes>, id: string)
    requires slot.state.Load(now, user) == Some(meta) && Missing(slot.marks.Live(now), meta.totalChunks) == {}
    requires slot.staged == StagedOf(objects, id) && !AllStaged(objects, id, meta.totalChunks)
    ensures FinishesAlone(now, slot, user, slot, [])
  {
    var open := Opened(now, slot, user);
    var k := FirstNotStaged(objects, id, meta.totalChunks);
    var parts := StagedParts(objects, id, k);
    ListsAlone(now, slot, user, meta);
    ReadsAlone(now, slot, open, meta, objects, id, k);
    NotStaged(objects, id, k);
    PartsCount(objects, id, k);
    FailedRead(now, slot, meta, parts);
    var end := UploadRuns.Sys(now, slot, map[], false, []);
    OneCall(open, At(now, slot, UploadRuns.ReadChunk(meta, parts)), end);
    assert Ended(end, slot, []);
  }

  /** The chunks 0 .. n-1. */
  function Indices(n: nat): set<int> {
    Missing({}, n)
  }

  function Left(slot: Slot, k: nat): Slot {
    slot.(staged := slot.staged - Indices(k))
  }

  function Removing(now: int, slot: Slot, meta: Meta, k: nat, stored: bool, accepted: seq<Bytes>): UploadRuns.Sys {
    UploadRuns.Sys(now, Left(slot, k), map[0 := UploadRuns.RemoveChunk(meta, k, stored)], k > 0, accepted)
  }

  lemma RemovesOne(now: int, slot: Slot, meta: Meta, k: nat, stored: bool, accepted: seq<Bytes>)
    requires k < meta.totalChunks
    ensures UploadRuns.Next(Removing(now, slot, meta, k, stored, accepted), UploadRuns.Advance(0)) ==
              Removing(now, slot, meta, k + 1, stored, accepted)
  {
    assert slot.staged - Indices(k) - {k} == slot.staged - Indices(k + 1);
  }

  lemma RemovesNext(open: UploadRuns.Sys, now: int, slot: Slot, meta: Meta, k: nat, stored: bool, accepted: seq<Bytes>)
    requires Leads(open, Removing(now, slot, meta, k, stored, accepted)) && k < meta.totalChunks
    ensures Leads(open, Removing(now, slot, meta, k + 1, stored, accepted))
  {
    RemovesOne(now, slot, meta, k, stored, accepted);
    OneCall(open, Removing(now, slot, meta, k, stored, accepted), Removing(now, slot, meta, k + 1, stored, accepted));
  }

  /** Deleting the first `k` chunks, one call each. */
  lemma {:induction false} RemovesAlone(open: UploadRuns.Sys, now: int, slot: Slot, meta: Meta, k: nat, stored: bool,
                                        accepted: seq<Bytes>)
    requires Leads(open, Removing(now, slot, meta, 0, stored, accepted)) && k <= meta.totalChunks
    ensures Leads(open, Removing(now, slot, meta, k, stored, accepted))
  {
    if k > 0 {
      RemovesAlone(open, now, slot, meta, k - 1, stored, accepted);
      RemovesNext(open, now, slot, meta, k - 1, stored, accepted);
    }
  }

  /** ... and what comes after the last of them. */
  lemma ClearsAlone(now: int, slot: Slot, user: string, meta: Meta, stored: bool, accepted: seq<Bytes>)
    requires Leads(Opened(now, slot, user), Removing(now, slot, meta, 0, stored, accepted))
    ensures var left := Left(slot, meta.totalChunks);
            FinishesAlone(now, slot, user, if stored then left.(state := Absent, marks := NO_MARKS) else left, accepted)
  {
    var open, n := Opened(now, slot, user), meta.totalChunks;
    var last := Removing(now, slot, meta, n, stored, accepted);
    var next := UploadRuns.Next(last, UploadRuns.Advance(0));
    RemovesAlone(open, now, slot, meta, n, stored, accepted);
    OneCall(open, last, next);
    if stored {
      assert next.handlers == map[0 := UploadRuns.DropKeys];
      var end := UploadRuns.Next(next, UploadRuns.Advance(0));
      OneCall(open, next, end);
      assert Ended(end, Left(slot, n).(state := Absent, marks := NO_MARKS), accepted);
    } else {
      assert Ended(next, Left(slot, n), accepted);
    }
  }

  /** Once all chunks are read: the joined bytes are stored, or their length is wrong and
      nothing is; the chunks are deleted either way. */
  lemma CompletesAlone(now: int, slot: Slot, user: string, meta: Meta, objects: map<Key, Bytes>, id: string,
                       data: Bytes)
    requires slot.state.Load(now, user) == Some(meta) && Missing(slot.marks.Live(now), meta.totalChunks) == {}
    requires slot.staged == StagedOf(objects, id) && AllStaged(objects, id, meta.totalChunks)
    requires data == Join(StagedParts(objects, id, meta.totalChunks))
    ensures var left := Left(slot, meta.totalChunks);
            if |data| == meta.totalSize
            then FinishesAlone(now, slot, user, left.(state := Absent, marks := NO_MARKS), [data])
            else FinishesAlone(now, slot, user, left, [])
  {
    var open := Opened(now, slot, user);
    ListsAlone(now, slot, user, meta);
    ReadsAlone(now, slot, open, meta, objects, id, meta.totalChunks);
    assert slot.staged - Indices(0) == slot.staged;
    if |data| == meta.totalSize {
      OneCall(open, At(now, slot, UploadRuns.StoreObject(meta, data)), Removing(now, slot, meta, 0, true, [data]));
      ClearsAlone(now, slot, user, meta, true, [data]);
    } else {
      ClearsAlone(now, slot, user, meta, false, []);
    }
  }
}
