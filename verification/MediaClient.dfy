/** The Flutter upload client against the upload endpoints: fresh, interrupted and resumed
    uploads. */
module MediaClient {
  import opened Common
  import opened Slicing
  import opened UploadState
  import opened Storage
  import opened UploadAlone
  import opened MediaServer
  import UploadRuns

  /** A status no server sends: the client itself threw (a slice outside the file). */
  const CLIENT_ERROR: nat := 0

  /** The cut of a resuming client, which knows only the number of chunks. */
  function ResumeSize(file: Bytes): nat
    requires |file| > 0
  {
    CeilDiv(|file|, CeilDiv(|file|, CHUNK_SIZE))
  }

  /** The upload of this file is alive; the chunks in `received` hold what `before` says, and
      chunks 0 .. i-1 besides are cut with `cut`. */
  ghost predicate Progress(slot: Slot, now: int, user: string, file: Bytes, received: set<int>, before: map<int, Bytes>,
                           cut: nat, i: nat) {
    var meta := slot.state.Load(now, user);
    && meta.Some? && meta.value.totalSize == |file| > 0
    && meta.value.totalChunks == CeilDiv(|file|, CHUNK_SIZE)
    && (forall j | j in received :: 0 <= j < meta.value.totalChunks)
    && (forall j: int :: j in slot.marks.Live(now) <==> j in received || 0 <= j < i)
    && (forall j: nat | j in received || j < i ::
          j in slot.staged && ChunkIs(file, received, before, cut, j, slot.staged[j]))
  }

  ghost predicate ChunkIs(file: Bytes, received: set<int>, before: map<int, Bytes>, cut: nat, j: nat, data: Bytes) {
    if j in received then j in before && data == before[j] else IsSlice(file, cut, j, data)
  }

  /** Every received chunk is a slice of the given cut. */
  ghost predicate AllCut(file: Bytes, received: set<int>, before: map<int, Bytes>, cut: nat) {
    forall j: nat | j in received :: j in before && IsSlice(file, cut, j, before[j])
  }

  /** ... or each of one of the two cuts. */
  ghost predicate AllPieces(file: Bytes, received: set<int>, before: map<int, Bytes>)
    requires |file| > 0
  {
    forall j: nat | j in received :: j in before && UploadRuns.Piece(file, ResumeSize(file), j, before[j])
  }

  /** An upload of this file that can be resumed: alive, with received chunks that fresh or
      resuming clients of this file have sent. */
  ghost predicate Resumable(slot: Slot, now: int, user: string, file: Bytes) {
    && |file| > 0
    && Progress(slot, now, user, file, slot.marks.Live(now), slot.staged, CHUNK_SIZE, 0)
    && AllPieces(file, slot.marks.Live(now), slot.staged)
  }

  /** The resume condition: the two cuts agree, or what has been received is all of the
      resuming client's cut, or it is everything and all of the fresh client's. */
  ghost predicate Fits(file: Bytes, received: set<int>, before: map<int, Bytes>)
    requires |file| > 0
  {
    var n := CeilDiv(|file|, CHUNK_SIZE);
    || |file| > n * (CHUNK_SIZE - 1)
    || AllCut(file, received, before, ResumeSize(file))
    || (Missing(received, n) == {} && AllCut(file, received, before, CHUNK_SIZE))
  }

  /** The upload counts every chunk as received, and none is staged. */
  ghost predicate Stuck(slot: Slot, now: int, user: string) {
    var meta := slot.state.Load(now, user);
    && meta.Some? && meta.value.totalChunks > 0
    && Missing(slot.marks.Live(now), meta.value.totalChunks) == {}
    && 0 !in slot.staged
  }

  // ---------------------------------------------------------------- what an interruption leaves

  /** However fresh and resuming clients of one file have been interleaved and interrupted, as
      long as the upload lives and no completion has begun to delete, it can be resumed. */
  lemma InterruptedIsResumable(now: int, user: string, mime: string, file: Bytes, steps: seq<UploadRuns.Step>)
    requires |file| > 0 && UploadRuns.FromFile(file, ResumeSize(file), steps)
    requires var s := UploadRuns.Run(UploadRuns.Start(now, user, mime, |file|), steps);
             !s.purged && s.slot.state.Get(s.now).Some?
    ensures var s := UploadRuns.Run(UploadRuns.Start(now, user, mime, |file|), steps);
            Resumable(s.slot, s.now, user, file)
  {
    ResumeCut(|file|, CHUNK_SIZE);
    UploadRuns.RunKeepsInv(now, user, mime, |file|, steps);
    UploadRuns.RunKeepsOfFile(now, user, mime, file, ResumeSize(file), steps);
  }

  /** Interrupted fresh clients leave nothing but the fresh client's slices. */
  lemma InterruptedFresh(now: int, user: string, mime: string, file: Bytes, steps: seq<UploadRuns.Step>)
    requires |file| > 0 && UploadRuns.FromFile(file, CHUNK_SIZE, steps)
    requires var s := UploadRuns.Run(UploadRuns.Start(now, user, mime, |file|), steps);
             !s.purged && s.slot.state.Get(s.now).Some?
    ensures var s := UploadRuns.Run(UploadRuns.Start(now, user, mime, |file|), steps);
            Resumable(s.slot, s.now, user, file) && AllCut(file, s.slot.marks.Live(s.now), s.slot.staged, CHUNK_SIZE)
  {
    ResumeCut(|file|, CHUNK_SIZE);
    UploadRuns.RunKeepsInv(now, user, mime, |file|, steps);
    UploadRuns.RunKeepsOfFile(now, user, mime, file, CHUNK_SIZE, steps);
  }

  // ---------------------------------------------------------------- sending

  lemma ChunkProgress(slot: Slot, now: int, user: string, file: Bytes, received: set<int>, before: map<int, Bytes>,
                      cut: nat, i: nat)
    requires Progress(slot, now, user, file, received, before, cut, i)
    requires cut <= CHUNK_SIZE && Cuts(|file|, cut, CeilDiv(|file|, CHUNK_SIZE))
    requires i < CeilDiv(|file|, CHUNK_SIZE) && i !in received
    ensures Times(cut, i) < |file|
    ensures var data := Slice(file, cut, i);
            && ChunkRefusal(slot, now, user, i, data).None?
            && Progress(ChunkAlone(now, slot, user, i, data, 3), now, user, file, received, before, cut, i + 1)
  {
    SliceLength(file, cut, CeilDiv(|file|, CHUNK_SIZE), i);
    var data := Slice(file, cut, i);
    assert ChunkRefusal(slot, now, user, i, data).None?;
    ThreeCalls(UploadRuns.Next(UploadRuns.Sys(now, slot, map[], false, []), UploadRuns.OpenChunk(0, user, i, data)), i,
               data, 3);
    WrittenProgress(slot, now, user, file, received, before, cut, i, data);
  }

  lemma WrittenProgress(slot: Slot, now: int, user: string, file: Bytes, received: set<int>, before: map<int, Bytes>,
                        cut: nat, i: nat, data: Bytes)
    requires Progress(slot, now, user, file, received, before, cut, i)
    requires i !in received && IsSlice(file, cut, i, data)
    ensures Progress(Written(now, slot, i, data, 3), now, user, file, received, before, cut, i + 1)
  {
    var after := Written(now, slot, i, data, 3);
    assert after.marks.Live(now) == slot.marks.Live(now) + {i as int};
    assert after.state == slot.state;
    forall j: nat | j in received || j < i + 1
      ensures j in after.staged && ChunkIs(file, received, before, cut, j, after.staged[j])
    {
      if j != i {
        assert after.staged[j] == slot.staged[j];
      }
    }
  }

  lemma SkipProgress(slot: Slot, now: int, user: string, file: Bytes, received: set<int>, before: map<int, Bytes>,
                     cut: nat, i: nat)
    requires Progress(slot, now, user, file, received, before, cut, i) && i in received
    ensures Progress(slot, now, user, file, received, before, cut, i + 1)
  {}

  /** The upload loop: skip what the server has, send the rest in order, up to chunk `upTo`
      where the client may be interrupted. */
  method SendChunks(server: MediaServer, id: string, user: string, file: Bytes, chunkSize: nat, upTo: nat,
                    received: set<int>)
    returns (r: Outcome<()>)
    modifies server`marks, server.storage
    ensures old(Resumable(server.View(id), server.now, user, file))
            && received == old(server.MarksOf(id).Live(server.now))
            && upTo <= CeilDiv(|file|, CHUNK_SIZE) && chunkSize <= CHUNK_SIZE
               && Cuts(|file|, chunkSize, CeilDiv(|file|, CHUNK_SIZE)) ==>
              r.Ok?
              && Progress(server.View(id), server.now, user, file, received, old(server.View(id).staged), chunkSize,
                          upTo)
    ensures (forall i: int | 0 <= i < upTo :: i in received) ==>
              r.Ok? && server.marks == old(server.marks) && server.storage.objects == old(server.storage.objects)
    ensures NamedSame(old(server.storage.objects), server.storage.objects)
  {
    ghost var before := server.View(id).staged;
    ghost var good := Resumable(server.View(id), server.now, user, file)
    && received == server.MarksOf(id).Live(server.now)
                      && upTo <= CeilDiv(|file|, CHUNK_SIZE) && chunkSize <= CHUNK_SIZE
                      && Cuts(|file|, chunkSize, CeilDiv(|file|, CHUNK_SIZE));
    ghost var skip := forall i: int | 0 <= i < upTo :: i in received;
    for i := 0 to upTo
      invariant good ==> Progress(server.View(id), server.now, user, file, received, before, chunkSize, i)
      invariant skip ==> server.marks == old(server.marks) && server.storage.objects == old(server.storage.objects)
      invariant NamedSame(old(server.storage.objects), server.storage.objects)
    {
      if i in received {
        if good { SkipProgress(server.View(id), server.now, user, file, received, before, chunkSize, i); }
      } else {
        if good {
          ChunkProgress(server.View(id), server.now, user, file, received, before, chunkSize, i);
        }
        if Times(chunkSize, i) > |file| {
          return Refused(CLIENT_ERROR);
        }
        var put := server.UploadChunk(id, user, i, Slice(file, chunkSize, i), 3);
        if put.Refused? {
          return put;
        }
      }
    }
    return Ok(());
  }

  // ---------------------------------------------------------------- completing

  /** With every chunk sent, a completion assembles a mixture of the two cuts. */
  lemma PartsOfProgress(objects: map<Key, Bytes>, id: string, slot: Slot, now: int, user: string, file: Bytes,
                        received: set<int>, before: map<int, Bytes>, cut: nat)
    requires slot.staged == StagedOf(objects, id)
    requires Progress(slot, now, user, file, received, before, cut, CeilDiv(|file|, CHUNK_SIZE))
    ensures var n := CeilDiv(|file|, CHUNK_SIZE);
            && Missing(slot.marks.Live(now), n) == {} && AllStaged(objects, id, n)
            && Assembled(objects, id, n) == Some(Join(StagedParts(objects, id, n)))
            && forall i: nat | i < n :: ChunkIs(file, received, before, cut, i, StagedParts(objects, id, n)[i])
  {
    var n := CeilDiv(|file|, CHUNK_SIZE);
    forall j: int | 0 <= j < n ensures Staged(id, j) in objects && objects[Staged(id, j)] == slot.staged[j] {
      assert j in slot.staged;
    }
    AssembledIsJoin(objects, id, n);
    var parts := StagedParts(objects, id, n);
    forall i: nat | i < n ensures ChunkIs(file, received, before, cut, i, parts[i]) {
      assert parts[i] == slot.staged[i];
    }
  }

  /** Chunks that are all of cut C or of cut R assemble to the file exactly if the resume
      condition holds. */
  lemma PartsFit(file: Bytes, received: set<int>, before: map<int, Bytes>, cut: nat, parts: seq<Bytes>)
    requires |file| > 0 && |parts| == CeilDiv(|file|, CHUNK_SIZE)
    requires forall j | j in received :: 0 <= j < |parts|
    requires AllPieces(file, received, before) && (cut == ResumeSize(file) || (cut == CHUNK_SIZE && received == {}))
    requires forall i: nat | i < |parts| :: ChunkIs(file, received, before, cut, i, parts[i])
    ensures |Join(parts)| == |file| ==> Join(parts) == file
    ensures |Join(parts)| == |file| <==> Fits(file, received, before)
  {
    var n, r := |parts|, ResumeSize(file);
    ResumeCut(|file|, CHUNK_SIZE);
    forall i: nat | i < n ensures IsSlice(file, CHUNK_SIZE, i, parts[i]) || IsSlice(file, r, i, parts[i]) {
      assert ChunkIs(file, received, before, cut, i, parts[i]);
    }
    assert Mixed(file, CHUNK_SIZE, r, parts);
    MixedLengthExact(file, CHUNK_SIZE, r, n, parts);
    if Fits(file, received, before) { FitIsUniform(file, received, before, cut, parts); }
    if Uniform(file, r, parts) || Uniform(file, CHUNK_SIZE, parts) { UniformFits(file, received, before, cut, parts); }
  }

  lemma FitIsUniform(file: Bytes, received: set<int>, before: map<int, Bytes>, cut: nat, parts: seq<Bytes>)
    requires |file| > 0 && |parts| == CeilDiv(|file|, CHUNK_SIZE)
    requires AllPieces(file, received, before) && (cut == ResumeSize(file) || (cut == CHUNK_SIZE && received == {}))
    requires forall i: nat | i < |parts| :: ChunkIs(file, received, before, cut, i, parts[i])
    requires Fits(file, received, before)
    ensures Uniform(file, CHUNK_SIZE, parts) || Uniform(file, ResumeSize(file), parts)
  {
    var n, r := |parts|, ResumeSize(file);
    ResumeCut(|file|, CHUNK_SIZE);
    if |file| > n * (CHUNK_SIZE - 1) || AllCut(file, received, before, r) {
      forall i: nat | i < n ensures IsSlice(file, if cut == CHUNK_SIZE then CHUNK_SIZE else r, i, parts[i]) {
        assert ChunkIs(file, received, before, cut, i, parts[i]);
      }
      assert Uniform(file, if cut == CHUNK_SIZE then CHUNK_SIZE else r, parts);
    } else {
      forall i: nat | i < n ensures IsSlice(file, CHUNK_SIZE, i, parts[i]) {
        assert ChunkIs(file, received, before, cut, i, parts[i]);
        assert i as int !in Missing(received, n);
      }
      assert Uniform(file, CHUNK_SIZE, parts);
    }
  }

  lemma UniformFits(file: Bytes, received: set<int>, before: map<int, Bytes>, cut: nat, parts: seq<Bytes>)
    requires |file| > 0 && |parts| == CeilDiv(|file|, CHUNK_SIZE)
    requires forall j | j in received :: 0 <= j < |parts|
    requires AllPieces(file, received, before) && (cut == ResumeSize(file) || (cut == CHUNK_SIZE && received == {}))
    requires forall i: nat | i < |parts| :: ChunkIs(file, received, before, cut, i, parts[i])
    requires Uniform(file, CHUNK_SIZE, parts) || Uniform(file, ResumeSize(file), parts)
    ensures Fits(file, received, before)
  {
    var n, r := |parts|, ResumeSize(file);
    ResumeCut(|file|, CHUNK_SIZE);
    assert forall i: nat | i in received :: ChunkIs(file, received, before, cut, i, parts[i]);
    if Uniform(file, r, parts) {
      assert AllCut(file, received, before, r) by {
        forall j: nat | j in received ensures j in before && IsSlice(file, r, j, before[j]) {
          assert IsSlice(file, r, j, parts[j]);
        }
      }
    } else {
      assert AllCut(file, received, before, CHUNK_SIZE) by {
        forall j: nat | j in received ensures j in before && IsSlice(file, CHUNK_SIZE, j, before[j]) {
          assert IsSlice(file, CHUNK_SIZE, j, parts[j]);
        }
      }
      if Missing(received, n) != {} && received != {} {
        var j: int :| j in Missing(received, n);
        var i: int :| i in received;
        assert ChunkIs(file, received, before, cut, j, parts[j]) && IsSlice(file, CHUNK_SIZE, j, parts[j]);
        SlicesDiffer(file, CHUNK_SIZE, r, n, j);
      }
    }
  }

  /** When only fresh slices have been received, the resume condition reads: all or nothing
      received, or N > n (C - 1). */
  lemma FitsAfterFresh(file: Bytes, received: set<int>, before: map<int, Bytes>)
    requires |file| > 0 && AllCut(file, received, before, CHUNK_SIZE)
    requires forall j | j in received :: 0 <= j < CeilDiv(|file|, CHUNK_SIZE)
    ensures var n := CeilDiv(|file|, CHUNK_SIZE);
            Fits(file, received, before) <==>
              Missing(received, n) == {} || received == {} || |file| > n * (CHUNK_SIZE - 1)
  {
    var n, r := CeilDiv(|file|, CHUNK_SIZE), ResumeSize(file);
    ResumeCut(|file|, CHUNK_SIZE);
    if AllCut(file, received, before, r) && received != {} {
      var i := AnElement(received);
      SameSlice(file, received, before, i);
    }
  }

  lemma SameSlice(file: Bytes, received: set<int>, before: map<int, Bytes>, i: int)
    requires |file| > 0 && 0 <= i < CeilDiv(|file|, CHUNK_SIZE) && i in received
    requires AllCut(file, received, before, CHUNK_SIZE) && AllCut(file, received, before, ResumeSize(file))
    ensures var n := CeilDiv(|file|, CHUNK_SIZE); Missing(received, n) == {} || |file| > n * (CHUNK_SIZE - 1)
  {
    var n := CeilDiv(|file|, CHUNK_SIZE);
    ResumeCut(|file|, CHUNK_SIZE);
    var k: nat := i;
    assert IsSlice(file, ResumeSize(file), k, before[k]) && IsSlice(file, CHUNK_SIZE, k, before[k]);
    if n > 1 {
      SlicesDiffer(file, CHUNK_SIZE, ResumeSize(file), n, k);
    }
  }

  ghost predicate Stores(storage: StorageService, name: string, data: Bytes)
    reads storage
  {
    Named(name) in storage.objects && storage.objects[Named(name)] == data
  }

  /** The file has been stored, and the client told. */
  ghost predicate Delivered(done: Completed, before: map<Key, Bytes>, after: map<Key, Bytes>, name: string,
                            thumbName: string, mime: string, file: Bytes, lib: Imaging) {
    MediaStored(before, after, name, thumbName, mime, file, lib) && Tells(done, after, name, thumbName, mime, lib)
  }

  lemma DeliveredSince(done: Completed, before: map<Key, Bytes>, sent: map<Key, Bytes>, after: map<Key, Bytes>,
                       name: string, thumbName: string, mime: string, file: Bytes, lib: Imaging)
    requires NamedSame(before, sent) && Delivered(done, sent, after, name, thumbName, mime, file, lib)
    ensures Delivered(done, before, after, name, thumbName, mime, file, lib)
  {
    assert SameAt(before, sent, Named(thumbName));
  }

  /** Completing against a healthy store, once nothing is missing. */
  method Complete(server: MediaServer, id: string, user: string, name: string, thumbName: string, lib: Imaging)
    returns (r: Outcome<Completed>)
    modifies server, server.storage
    ensures server.now == old(server.now)
    ensures var meta := old(server.StateOf(id)).Load(server.now, user);
            meta.Some? && meta.value.totalChunks > 0
            && Missing(old(server.MarksOf(id)).Live(server.now), meta.value.totalChunks) == {} ==>
              var data := Assembled(old(server.storage.objects), id, meta.value.totalChunks);
              && (r.Ok? <==> data.Some? && |data.value| == meta.value.totalSize)
              && (r.Ok? ==>
                    Delivered(r.value, old(server.storage.objects), server.storage.objects, name, thumbName,
                              meta.value.mime, data.value, lib))
              && (r.Refused? && data.Some? ==> r == Refused(400) && Stuck(server.View(id), server.now, user))
              && (data.None? ==> r == Refused(500) && server.View(id) == old(server.View(id)))
  {
    ghost var meta := server.StateOf(id).Load(server.now, user);
    if meta.Some? && meta.value.totalChunks > 0 {
      assert Staged(id, 0) in StagedKeys(id, meta.value.totalChunks);
    }
    r := server.UploadComplete(id, user, name, thumbName, lib, HEALTHY);
  }

  // ---------------------------------------------------------------- whole uploads

  lemma NothingToAssemble(objects: map<Key, Bytes>, id: string, n: nat)
    requires n > 0 && 0 !in StagedOf(objects, id)
    ensures Assembled(objects, id, n).None?
  {
    assert Staged(id, 0) in objects ==> 0 in StagedOf(objects, id);
    AssembledIsJoin(objects, id, n);
  }

  lemma AllReceived(received: set<int>, n: nat)
    requires Missing(received, n) == {}
    ensures forall i: int | 0 <= i < n :: i in received
  {
    forall i: int | 0 <= i < n ensures i in received {
      assert i !in Missing(received, n);
    }
  }

  /** The part a fresh and a resumed upload share: send what is missing, then complete. */
  method Finish(server: MediaServer, id: string, user: string, file: Bytes, chunkSize: nat, totalChunks: nat,
                received: set<int>,
                name: string, thumbName: string, lib: Imaging)
    returns (r: Outcome<Completed>)
    requires received == server.MarksOf(id).Live(server.now)
    modifies server, server.storage
    ensures old(Resumable(server.View(id), server.now, user, file)) && totalChunks == CeilDiv(|file|, CHUNK_SIZE)
            && (chunkSize == ResumeSize(file) || (chunkSize == CHUNK_SIZE && received == {})) ==>
              var mime := old(server.StateOf(id).meta.mime);
              && (r.Ok? <==> old(Fits(file, received, server.View(id).staged)))
              && (r.Ok? ==> Delivered(r.value, old(server.storage.objects), server.storage.objects, name, thumbName,
                                      mime, file, lib))
              && (r.Refused? ==> r == Refused(400) && Stuck(server.View(id), server.now, user))
    ensures old(Stuck(server.View(id), server.now, user)
                && server.StateOf(id).Load(server.now, user).value.totalChunks == totalChunks) ==>
              r == Refused(500) && server.View(id) == old(server.View(id))
    ensures server.now == old(server.now)
  {
    ghost var slot := server.View(id);
    ghost var good := Resumable(slot, server.now, user, file) && totalChunks == CeilDiv(|file|, CHUNK_SIZE)
                      && (chunkSize == ResumeSize(file) || (chunkSize == CHUNK_SIZE && received == {}));
    ghost var stuck := Stuck(slot, server.now, user)
    && slot.state.Load(server.now, user).value.totalChunks == totalChunks;
    if good { ResumeCut(|file|, CHUNK_SIZE); }
    if stuck {
      AllReceived(received, totalChunks);
      NothingToAssemble(server.storage.objects, id, totalChunks);
    }
    var sent := SendChunks(server, id, user, file, chunkSize, totalChunks, received);
    if sent.Refused? {
      return Refused(sent.status);
    }
    if good {
      PartsOfProgress(server.storage.objects, id, server.View(id), server.now, user, file, received, slot.staged,
                      chunkSize);
      PartsFit(file, received, slot.staged, chunkSize, StagedParts(server.storage.objects, id, totalChunks));
    }
    assert stuck ==> server.View(id) == slot;
    ghost var objects := server.storage.objects;
    r := Complete(server, id, user, name, thumbName, lib);
    if good && r.Ok? {
      DeliveredSince(r.value, old(server.storage.objects), objects, server.storage.objects, name, thumbName,
                     slot.state.meta.mime, file, lib);
    }
  }

  /** `newId`, `name` and `thumbName` are the random tokens the server draws. */
  method Upload(server: MediaServer, user: string, file: Bytes, filename: string, mime: string, resume: Option<string>,
                newId: string, name: string, thumbName: string, lib: Imaging)
    returns (r: Outcome<Completed>)
    requires resume.None? ==> server.Unused(newId)
    modifies server, server.storage
    // A fresh upload of an allowed file succeeds and stores the file, images recompressed.
    ensures resume.None? && 0 < |file| <= MAX_UPLOAD_BYTES && |filename| <= FILENAME_LENGTH
            && mime in ALLOWED_MIME_TYPES ==>
              r.Ok? && Delivered(r.value, old(server.storage.objects), server.storage.objects, name, thumbName, mime,
                                 file, lib)
              && (!("image/" <= mime) ==> Stores(server.storage, name, file))
    // A resumed upload succeeds, and then stores the file, exactly under the resume condition;
    // otherwise it is turned down and the upload is stuck.
    ensures resume.Some? && old(Resumable(server.View(resume.value), server.now, user, file)) ==>
              var was := old(server.View(resume.value));
              && (r.Ok? <==> Fits(file, was.marks.Live(server.now), was.staged))
              && (r.Ok? ==>
                    Delivered(r.value, old(server.storage.objects), server.storage.objects, name, thumbName,
                              was.state.meta.mime, file, lib)
                    && (!("image/" <= was.state.meta.mime) ==> Stores(server.storage, name, file)))
              && (r.Refused? ==> r == Refused(400) && Stuck(server.View(resume.value), server.now, user))
    // Resuming a stuck upload sends nothing and fails, again and again.
    ensures resume.Some? && old(Stuck(server.View(resume.value), server.now, user)) ==>
              r == Refused(500) && server.View(resume.value) == old(server.View(resume.value))
    ensures server.now == old(server.now)
  {
    var id, chunkSize, totalChunks: nat, received: set<int>;
    match resume {
      case Some(resumed) =>
        var status := server.UploadStatus(resumed, user);
        if status.Refused? {
          return Refused(status.status);
        }
        if status.value.0 == 0 {
          return Refused(CLIENT_ERROR);
        }
        id, totalChunks, received := resumed, status.value.0, status.value.1;
        chunkSize := CeilDiv(|file|, totalChunks);
      case None =>
        var init := server.UploadInit(newId, user, filename, mime, |file|);
        if init.Refused? {
          return Refused(init.status);
        }
        id, chunkSize, totalChunks, received := newId, init.value.0, init.value.1, {};
    }
    r := Finish(server, id, user, file, chunkSize, totalChunks, received, name, thumbName, lib);
  }

  /** What a fresh client has sent of the file. */
  lemma FreshProgress(slot: Slot, now: int, user: string, file: Bytes, sent: nat)
    requires Progress(slot, now, user, file, {}, map[], CHUNK_SIZE, sent) && sent <= CeilDiv(|file|, CHUNK_SIZE)
    ensures Resumable(slot, now, user, file) && AllCut(file, slot.marks.Live(now), slot.staged, CHUNK_SIZE)
    ensures forall j :: j in slot.marks.Live(now) <==> 0 <= j < sent
  {
    var received := slot.marks.Live(now);
    forall j: nat | j in received ensures j in slot.staged && IsSlice(file, CHUNK_SIZE, j, slot.staged[j]) {
      assert j < sent && ChunkIs(file, {}, map[], CHUNK_SIZE, j, slot.staged[j]);
    }
  }

  /** A fresh upload interrupted after `sent` chunks. */
  method Interrupt(server: MediaServer, user: string, file: Bytes, filename: string, mime: string, newId: string,
                   sent: nat)
    requires server.Unused(newId)
    requires 0 < |file| <= MAX_UPLOAD_BYTES && |filename| <= FILENAME_LENGTH && mime in ALLOWED_MIME_TYPES
    requires sent <= CeilDiv(|file|, CHUNK_SIZE)
    modifies server, server.storage
    ensures Resumable(server.View(newId), server.now, user, file)
    ensures AllCut(file, server.View(newId).marks.Live(server.now), server.View(newId).staged, CHUNK_SIZE)
    ensures forall j :: j in server.View(newId).marks.Live(server.now) <==> 0 <= j < sent
    ensures server.StateOf(newId).Present? && server.StateOf(newId).meta.mime == mime
    ensures server.now == old(server.now) && NamedSame(old(server.storage.objects), server.storage.objects)
  {
    ResumeCut(|file|, CHUNK_SIZE);
    var init := server.UploadInit(newId, user, filename, mime, |file|);
    var chunks := SendChunks(server, newId, user, file, CHUNK_SIZE, sent, {});
    FreshProgress(server.View(newId), server.now, user, file, sent);
  }

  /** Interrupted and then resumed: with some chunks sent and some not, it all depends on
      N > n (C - 1); one byte more than a chunk is a file whose resume is turned down, and whose
      upload is stuck from then on. */
  method InterruptAndResume(server: MediaServer, user: string, file: Bytes, filename: string, mime: string,
                            newId: string, sent: nat,
                            name: string, thumbName: string, lib: Imaging)
    returns (r: Outcome<Completed>)
    requires server.Unused(newId)
    requires 0 < |file| <= MAX_UPLOAD_BYTES && |filename| <= FILENAME_LENGTH && mime in ALLOWED_MIME_TYPES
    requires 0 < sent < CeilDiv(|file|, CHUNK_SIZE)
    modifies server, server.storage
    ensures r.Ok? <==> |file| > CeilDiv(|file|, CHUNK_SIZE) * (CHUNK_SIZE - 1)
    ensures r.Ok? && !("image/" <= mime) ==> Stores(server.storage, name, file) && r.value.size == |file|
    ensures r.Ok? ==> Delivered(r.value, old(server.storage.objects), server.storage.objects, name, thumbName, mime,
                                file, lib)
    ensures r.Refused? ==> r == Refused(400) && Stuck(server.View(newId), server.now, user)
    ensures |file| == CHUNK_SIZE + 1 ==> r == Refused(400)
  {
    Interrupt(server, user, file, filename, mime, newId, sent);
    ghost var slot := server.View(newId);
    FitsAfterFresh(file, slot.marks.Live(server.now), slot.staged);
    assert 0 in slot.marks.Live(server.now);
    assert sent as int in Missing(slot.marks.Live(server.now), CeilDiv(|file|, CHUNK_SIZE));
    ghost var objects := server.storage.objects;
    r := Upload(server, user, file, filename, mime, Some(newId), newId, name, thumbName, lib);
    if r.Ok? {
      DeliveredSince(r.value, old(server.storage.objects), objects, server.storage.objects, name, thumbName, mime, file,
                     lib);
    }
  }
}
