/** Chunk uploads and completions of ONE upload id, interleaved at every Redis command and
    every object-store call, over a clock, with crashes at any point.

    Other uploads use other keys, so one id can be followed alone.  A request that is refused
    changes nothing; a crashed handler just stops. */
module UploadRuns {
  import opened Common
  import opened Slicing
  import opened UploadState

  /** The next call of a handler that has passed `_load_state` and its checks. */
  datatype Handler =
    | PutChunk(index: int, data: Bytes)
    | MarkChunk(index: int)
    | RefreshMarks
    | ListMarks(meta: Meta)
    | ReadChunk(meta: Meta, parts: seq<Bytes>)
    | StoreObject(meta: Meta, data: Bytes)
    | RemoveChunk(meta: Meta, k: nat, stored: bool)
    | DropKeys

  /** `purged` says that some completion has begun to delete the staged chunks;
      `accepted` lists the byte strings that passed the length check and were stored. */
  datatype Sys = Sys(now: int, slot: Slot, handlers: map<nat, Handler>, purged: bool, accepted: seq<Bytes>)

  datatype Step =
    | Tick(seconds: nat)
    | OpenChunk(h: nat, user: string, index: int, data: Bytes)
    | OpenComplete(h: nat, user: string)
    | Advance(h: nat)
    | Crash(h: nat)

  function Start(now: int, user: string, mime: string, size: nat): Sys {
    Sys(now, InitSlot(now, user, mime, size), map[], false, [])
  }

  function Next(s: Sys, step: Step): Sys {
    match step
    case Tick(seconds) => s.(now := s.now + seconds)
    case OpenChunk(h, user, index, data) =>
      if h in s.handlers || ChunkRefusal(s.slot, s.now, user, index, data).Some? then s
      else s.(handlers := s.handlers[h := PutChunk(index, data)])
    case OpenComplete(h, user) =>
      var meta := s.slot.state.Load(s.now, user);
      if h in s.handlers || meta.None? then s
      else s.(handlers := s.handlers[h := ListMarks(meta.value)])
    case Advance(h) => if h in s.handlers then Call(s, h, s.handlers[h]) else s
    case Crash(h) => s.(handlers := s.handlers - {h})
  }

  /** One Redis command or object-store call. */
  function Call(s: Sys, h: nat, handler: Handler): Sys {
    match handler
    case PutChunk(i, data) =>
      s.(slot := s.slot.(staged := s.slot.staged[i := data]), handlers := s.handlers[h := MarkChunk(i)])
    case MarkChunk(i) =>
      s.(slot := s.slot.(marks := s.slot.marks.Add(s.now, i)), handlers := s.handlers[h := RefreshMarks])
    case RefreshMarks =>
      s.(slot := s.slot.(marks := s.slot.marks.Expire(s.now, UPLOAD_STATE_TTL)), handlers := s.handlers - {h})
    case ListMarks(meta) =>
      if Missing(s.slot.marks.Live(s.now), meta.totalChunks) != {} then s.(handlers := s.handlers - {h})
      else s.(handlers := s.handlers[h := Checked(meta, [])])
    case ReadChunk(meta, parts) =>
      if |parts| !in s.slot.staged then s.(handlers := s.handlers - {h})
      else s.(handlers := s.handlers[h := Checked(meta, parts + [s.slot.staged[|parts|]])])
    case StoreObject(meta, data) =>
      s.(accepted := s.accepted + [data], handlers := s.handlers[h := RemoveChunk(meta, 0, true)])
    case RemoveChunk(meta, k, stored) =>
      if k < meta.totalChunks then
        s.(slot := s.slot.(staged := s.slot.staged - {k}), purged := true,
           handlers := s.handlers[h := RemoveChunk(meta, k + 1, stored)])
      else if stored then s.(handlers := s.handlers[h := DropKeys])
      else s.(handlers := s.handlers - {h})
    case DropKeys =>
      s.(slot := s.slot.(state := Absent, marks := NO_MARKS), handlers := s.handlers - {h})
  }

  /** The local work after `parts` have been read: read on, or compare the length. */
  function Checked(meta: Meta, parts: seq<Bytes>): Handler {
    if |parts| < meta.totalChunks then ReadChunk(meta, parts)
    else if |Join(parts)| != meta.totalSize then RemoveChunk(meta, 0, false)
    else StoreObject(meta, Join(parts))
  }

  function Run(s: Sys, steps: seq<Step>): Sys {
    if steps == [] then s else Next(Run(s, steps[..|steps| - 1]), steps[|steps| - 1])
  }

  // ---------------------------------------------------------------- bookkeeping invariant

  ghost predicate AllStaged(s: Sys, n: nat) {
    forall i: int | 0 <= i < n :: i in s.slot.staged
  }

  ghost predicate HandlerOk(s: Sys, meta: Meta, handler: Handler) {
    match handler
    case PutChunk(i, data) => 0 <= i < meta.totalChunks && 0 < |data| <= CHUNK_SIZE
    case MarkChunk(i) => 0 <= i < meta.totalChunks && (!s.purged ==> i in s.slot.staged)
    case RefreshMarks => true
    case ListMarks(m) => m == meta
    case ReadChunk(m, parts) =>
      m == meta && |parts| < meta.totalChunks && (!s.purged ==> AllStaged(s, meta.totalChunks))
    case StoreObject(m, data) => m == meta && |data| == meta.totalSize
    case RemoveChunk(m, k, stored) => m == meta && (stored ==> s.accepted != []) && (k > 0 ==> s.purged)
    case DropKeys => s.purged && s.accepted != []
  }

  /** `meta` and `expiry` are what `upload_init` wrote. */
  ghost predicate Inv(s: Sys, meta: Meta, expiry: int) {
    && meta.totalChunks > 0
    && expiry <= s.now + UPLOAD_STATE_TTL
    && (s.slot.state == Present(meta, expiry) || (s.slot.state == Absent && s.purged))
    && (forall i | i in s.slot.marks.members :: 0 <= i < meta.totalChunks && (!s.purged ==> i in s.slot.staged))
    && (s.slot.marks.expiry.Some? ==> expiry <= s.slot.marks.expiry.value)
    && (forall h | h in s.handlers :: HandlerOk(s, meta, s.handlers[h]))
  }

  lemma StepKeepsInv(s: Sys, step: Step, meta: Meta, expiry: int)
    requires Inv(s, meta, expiry)
    ensures Inv(Next(s, step), meta, expiry)
  {
    var t := Next(s, step);
    match step
    case Tick(_) => forall h | h in t.handlers ensures HandlerOk(t, meta, t.handlers[h]) {
        assert HandlerOk(s, meta, s.handlers[h]);
      }
    case OpenChunk(h, user, index, data) => KeepOthers(s, t, h, meta);
    case OpenComplete(h, user) => KeepOthers(s, t, h, meta);
    case Crash(h) => KeepOthers(s, t, h, meta);
    case Advance(h) =>
      if h in s.handlers {
        AdvanceKeepsInv(s, h, meta, expiry);
      }
  }

  lemma AdvanceKeepsInv(s: Sys, h: nat, meta: Meta, expiry: int)
    requires Inv(s, meta, expiry) && h in s.handlers
    ensures Inv(Next(s, Advance(h)), meta, expiry)
  {
    assert HandlerOk(s, meta, s.handlers[h]);
    OwnHandlerOk(s, h, meta, expiry);
    KeepOthers(s, Next(s, Advance(h)), h, meta);
  }

  /** What a handler's next call relies on holds after its last one. */
  lemma OwnHandlerOk(s: Sys, h: nat, meta: Meta, expiry: int)
    requires Inv(s, meta, expiry) && h in s.handlers
    ensures var t := Next(s, Advance(h)); h in t.handlers ==> HandlerOk(t, meta, t.handlers[h])
  {
    var t := Next(s, Advance(h));
    assert HandlerOk(s, meta, s.handlers[h]);
    if s.handlers[h].ListMarks? && h in t.handlers {
      forall i: int | 0 <= i < meta.totalChunks ensures i in s.slot.marks.members {
        assert i !in Missing(s.slot.marks.Live(s.now), meta.totalChunks);
      }
    }
  }

  /** A step of `h` leaves what the others rely on. */
  lemma KeepOthers(s: Sys, t: Sys, h: nat, meta: Meta)
    requires forall g | g in s.handlers :: HandlerOk(s, meta, s.handlers[g])
    requires t.handlers - {h} == s.handlers - {h}
    requires s.purged ==> t.purged
    requires !t.purged ==> s.slot.staged.Keys <= t.slot.staged.Keys
    requires s.accepted != [] ==> t.accepted != []
    ensures forall g | g in t.handlers && g != h :: HandlerOk(t, meta, t.handlers[g])
  {
    forall g | g in t.handlers && g != h ensures HandlerOk(t, meta, t.handlers[g]) {
      assert g in t.handlers - {h} && (t.handlers - {h})[g] == t.handlers[g];
      assert g in s.handlers && s.handlers[g] == t.handlers[g];
      assert HandlerOk(s, meta, s.handlers[g]);
    }
  }

  lemma {:induction false} RunKeepsInv(now: int, user: string, mime: string, size: nat, steps: seq<Step>)
    requires size > 0
    ensures Inv(Run(Start(now, user, mime, size), steps),
                Meta(user, mime, size, CeilDiv(size, CHUNK_SIZE)), now + UPLOAD_STATE_TTL)
  {
    if steps != [] {
      var front := steps[..|steps| - 1];
      RunKeepsInv(now, user, mime, size, front);
      StepKeepsInv(Run(Start(now, user, mime, size), front), steps[|steps| - 1],
                   Meta(user, mime, size, CeilDiv(size, CHUNK_SIZE)), now + UPLOAD_STATE_TTL);
    }
  }

  /** While the upload is alive and no completion has started deleting, every received index
      is in range and has a staged object, whatever crashed in between; received and missing
      split [0, n) in two. */
  lemma ReceivedIsStaged(now: int, user: string, mime: string, size: nat, steps: seq<Step>)
    requires size > 0
    ensures var s := Run(Start(now, user, mime, size), steps);
            var n := CeilDiv(size, CHUNK_SIZE);
            var received := s.slot.marks.Live(s.now);
            && (forall i | i in received :: 0 <= i < n)
            && (!s.purged ==> received <= s.slot.staged.Keys)
            && received !! Missing(received, n)
            && (forall i :: i in received + Missing(received, n) <==> 0 <= i < n)
  {
    RunKeepsInv(now, user, mime, size, steps);
  }

  /** While the upload is alive the marks have not expired. */
  lemma MarksLive(s: Sys, meta: Meta, expiry: int)
    requires Inv(s, meta, expiry) && s.slot.state.Get(s.now).Some?
    ensures s.slot.marks.Live(s.now) == s.slot.marks.members
  {}

  lemma MarksStay(s: Sys, step: Step, t: Sys, meta: Meta, expiry: int)
    requires Inv(s, meta, expiry) && t == Next(s, step) && t.slot.state.Get(t.now).Some?
    ensures s.slot.state.Get(s.now).Some? && s.slot.marks.Live(s.now) <= t.slot.marks.members
  {}

  /** The chunk set always outlives the state key: as long as the upload is alive, no index
      ever marked is lost to expiry (or to anything else). */
  lemma {:induction false} NoMarkIsLost(now: int, user: string, mime: string, size: nat, steps: seq<Step>, k: nat)
    requires size > 0 && k <= |steps|
    requires var s := Run(Start(now, user, mime, size), steps); s.slot.state.Get(s.now).Some?
    ensures var start := Start(now, user, mime, size);
            var early := Run(start, steps[..k]);
            var s := Run(start, steps);
            early.slot.marks.members <= s.slot.marks.Live(s.now)
  {
    var start, meta := Start(now, user, mime, size), Meta(user, mime, size, CeilDiv(size, CHUNK_SIZE));
    var s := Run(start, steps);
    RunKeepsInv(now, user, mime, size, steps);
    MarksLive(s, meta, now + UPLOAD_STATE_TTL);
    if k == |steps| {
      assert steps[..k] == steps;
    } else {
      var front := steps[..|steps| - 1];
      assert front[..k] == steps[..k];
      RunKeepsInv(now, user, mime, size, front);
      MarksStay(Run(start, front), steps[|steps| - 1], s, meta, now + UPLOAD_STATE_TTL);
      NoMarkIsLost(now, user, mime, size, front, k);
    }
  }

  // ---------------------------------------------------------------- one file

  /** Chunk `i` of the file under one of the two cuts. */
  ghost predicate Piece(file: Bytes, r: nat, i: int, data: Bytes) {
    i >= 0 && (IsSlice(file, CHUNK_SIZE, i, data) || IsSlice(file, r, i, data))
  }

  /** Every chunk request of the run sends a slice of this one file: any mix of fresh and
      resuming clients, retries and duplicates in any order. */
  ghost predicate FromFile(file: Bytes, r: nat, steps: seq<Step>) {
    forall k | 0 <= k < |steps| && steps[k].OpenChunk? :: Piece(file, r, steps[k].index, steps[k].data)
  }

  ghost predicate HandlerOfFile(file: Bytes, r: nat, meta: Meta, handler: Handler) {
    match handler
    case PutChunk(i, data) => Piece(file, r, i, data)
    case ListMarks(m) => m == meta
    case ReadChunk(m, parts) => m == meta && Mixed(file, CHUNK_SIZE, r, parts) && |parts| < meta.totalChunks
    case StoreObject(m, data) => data == file
    case RemoveChunk(m, _, stored) => stored || r < CHUNK_SIZE
    case _ => true
  }

  ghost predicate OfFile(s: Sys, file: Bytes, r: nat, meta: Meta) {
    && (s.slot.state.Present? ==> s.slot.state.meta == meta)
    && (forall i | i in s.slot.staged :: Piece(file, r, i, s.slot.staged[i]))
    && (forall h | h in s.handlers :: HandlerOfFile(file, r, meta, s.handlers[h]))
    && (forall k | 0 <= k < |s.accepted| :: s.accepted[k] == file)
  }

  ghost predicate FileCuts(file: Bytes, r: nat, meta: Meta) {
    && meta.totalSize == |file| && r <= CHUNK_SIZE
    && Cuts(|file|, CHUNK_SIZE, meta.totalChunks) && Cuts(|file|, r, meta.totalChunks)
  }

  /** The length check sends a full mixture on to storage only if it is the file, and never
      turns away slices of a single cut. */
  lemma CheckedOfFile(file: Bytes, r: nat, meta: Meta, parts: seq<Bytes>)
    requires FileCuts(file, r, meta)
    requires |parts| <= meta.totalChunks && Mixed(file, CHUNK_SIZE, r, parts)
    ensures HandlerOfFile(file, r, meta, Checked(meta, parts))
  {
    if |parts| == meta.totalChunks {
      MixedLengthExact(file, CHUNK_SIZE, r, meta.totalChunks, parts);
      if r == CHUNK_SIZE {
        assert Uniform(file, r, parts);
      }
    }
  }

  lemma MixedSnoc(file: Bytes, r: nat, parts: seq<Bytes>, data: Bytes)
    requires Mixed(file, CHUNK_SIZE, r, parts) && Piece(file, r, |parts|, data)
    ensures Mixed(file, CHUNK_SIZE, r, parts + [data])
  {}

  lemma OwnHandlerOfFile(s: Sys, h: nat, file: Bytes, r: nat, meta: Meta)
    requires h in s.handlers && HandlerOfFile(file, r, meta, s.handlers[h]) && FileCuts(file, r, meta)
    requires forall i | i in s.slot.staged :: Piece(file, r, i, s.slot.staged[i])
    ensures var t := Next(s, Advance(h)); h in t.handlers ==> HandlerOfFile(file, r, meta, t.handlers[h])
  {
    match s.handlers[h]
    case ListMarks(_) => CheckedOfFile(file, r, meta, []);
    case ReadChunk(_, parts) =>
      if |parts| in s.slot.staged {
        MixedSnoc(file, r, parts, s.slot.staged[|parts|]);
        CheckedOfFile(file, r, meta, parts + [s.slot.staged[|parts|]]);
      }
    case _ =>
  }

  lemma AdvanceKeepsOfFile(s: Sys, h: nat, file: Bytes, r: nat, meta: Meta)
    requires OfFile(s, file, r, meta) && FileCuts(file, r, meta) && h in s.handlers
    ensures OfFile(Next(s, Advance(h)), file, r, meta)
  {
    var t := Next(s, Advance(h));
    assert HandlerOfFile(file, r, meta, s.handlers[h]);
    OwnHandlerOfFile(s, h, file, r, meta);
    forall g | g in t.handlers ensures HandlerOfFile(file, r, meta, t.handlers[g]) {
      if g != h { assert g in s.handlers && t.handlers[g] == s.handlers[g]; }
    }
  }

  lemma StepKeepsOfFile(s: Sys, step: Step, file: Bytes, r: nat, meta: Meta)
    requires OfFile(s, file, r, meta) && FileCuts(file, r, meta)
    requires step.OpenChunk? ==> Piece(file, r, step.index, step.data)
    ensures OfFile(Next(s, step), file, r, meta)
  {
    if step.Advance? && step.h in s.handlers { AdvanceKeepsOfFile(s, step.h, file, r, meta); }
  }

  lemma {:induction false} RunKeepsOfFile(now: int, user: string, mime: string, file: Bytes, r: nat, steps: seq<Step>)
    requires FileCuts(file, r, Meta(user, mime, |file|, CeilDiv(|file|, CHUNK_SIZE)))
    requires FromFile(file, r, steps)
    ensures OfFile(Run(Start(now, user, mime, |file|), steps), file, r,
                   Meta(user, mime, |file|, CeilDiv(|file|, CHUNK_SIZE)))
  {
    if steps != [] {
      var front := steps[..|steps| - 1];
      assert FromFile(file, r, front) by {
        assert forall k | 0 <= k < |front| :: front[k] == steps[k];
      }
      RunKeepsOfFile(now, user, mime, file, r, front);
      StepKeepsOfFile(Run(Start(now, user, mime, |file|), front), steps[|steps| - 1], file, r,
                      Meta(user, mime, |file|, CeilDiv(|file|, CHUNK_SIZE)));
    }
  }

  /** No interleaving of fresh and resuming clients of one file, with any retries, crashes
      and overwritten chunks (even while a completion is reading), ever stores anything but
      that file. */
  lemma OnlyTheFileIsStored(now: int, user: string, mime: string, file: Bytes, steps: seq<Step>, k: nat)
    requires |file| > 0
    requires FromFile(file, CeilDiv(|file|, CeilDiv(|file|, CHUNK_SIZE)), steps)
    requires k < |Run(Start(now, user, mime, |file|), steps).accepted|
    ensures Run(Start(now, user, mime, |file|), steps).accepted[k] == file
  {
    ResumeCut(|file|, CHUNK_SIZE);
    RunKeepsOfFile(now, user, mime, file, CeilDiv(|file|, CeilDiv(|file|, CHUNK_SIZE)), steps);
  }

  /** If only fresh slices are sent (or the two cuts agree), in any order with any retries
      and duplicates, no completion ever reports a size mismatch: staged chunks are only
      deleted after the file has been stored. */
  lemma FreshNeverMismatches(now: int, user: string, mime: string, file: Bytes, steps: seq<Step>)
    requires |file| > 0 && FromFile(file, CHUNK_SIZE, steps)
    ensures var s := Run(Start(now, user, mime, |file|), steps);
            && (forall h | h in s.handlers && s.handlers[h].RemoveChunk? :: s.handlers[h].stored)
            && (forall k | 0 <= k < |s.accepted| :: s.accepted[k] == file)
  {
    ResumeCut(|file|, CHUNK_SIZE);
    RunKeepsOfFile(now, user, mime, file, CHUNK_SIZE, steps);
    var s := Run(Start(now, user, mime, |file|), steps);
    var meta := Meta(user, mime, |file|, CeilDiv(|file|, CHUNK_SIZE));
    forall h | h in s.handlers && s.handlers[h].RemoveChunk? ensures s.handlers[h].stored {
      assert HandlerOfFile(file, CHUNK_SIZE, meta, s.handlers[h]);
    }
  }

  /** Before any deletion a completion that found nothing missing cannot fail on a read: its
      next call reads on, stores the object, or reports the mismatch. */
  lemma ReadsSucceed(now: int, user: string, mime: string, size: nat, steps: seq<Step>, h: nat)
    requires size > 0
    requires var s := Run(Start(now, user, mime, size), steps);
             !s.purged && h in s.handlers && s.handlers[h].ReadChunk?
    ensures var s := Run(Start(now, user, mime, size), steps);
            var parts := s.handlers[h].parts;
            && |parts| in s.slot.staged
            && h in Next(s, Advance(h)).handlers
            && Next(s, Advance(h)).handlers[h] == Checked(s.handlers[h].meta, parts + [s.slot.staged[|parts|]])
  {
    RunKeepsInv(now, user, mime, size, steps);
    var s := Run(Start(now, user, mime, size), steps);
    assert HandlerOk(s, Meta(user, mime, size, CeilDiv(size, CHUNK_SIZE)), s.handlers[h]);
  }
}
