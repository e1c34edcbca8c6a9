/** The chunked-upload endpoints over their Redis keys and the object store, one request at a
    time; each is proved to do what its handler does in the interleaved model. */
module MediaServer {
  import opened Common
  import opened Slicing
  import opened UploadState
  import opened Storage
  import opened UploadAlone
  import UploadRuns

  const ALLOWED_MIME_TYPES: set<string> :=
    {"image/jpeg", "image/png", "image/webp", "video/mp4", "audio/ogg", "audio/mpeg", "application/pdf"}

  const FILENAME_LENGTH := 255
  const RECOMPRESS_FROM := 512 * 1024

  /** What the imaging library would make of some bytes: whether it can decode them, and as
      what it would encode the image and its thumbnail. */
  datatype Imaging = Imaging(decodes: bool, jpeg: Bytes, thumb: Bytes)

  /** `_process_image`: what is stored, and a thumbnail.  A large image is replaced by a smaller
      encoding; nothing small is touched. */
  function ProcessImage(data: Bytes, lib: Imaging): (r: (Bytes, Option<Bytes>))
    ensures |r.0| <= |data|
    ensures !lib.decodes || |data| <= 512 * 1024 || |data| <= |lib.jpeg| ==> r.0 == data
    ensures lib.decodes && 512 * 1024 < |data| && |lib.jpeg| < |data| ==> r.0 == lib.jpeg
    ensures lib.decodes <==> r.1.Some?
    ensures lib.decodes ==> r.1 == Some(lib.thumb)
  {
    if !lib.decodes then (data, None)
    else (if |data| > RECOMPRESS_FROM && |lib.jpeg| < |data| then lib.jpeg else data, Some(lib.thumb))
  }

  function Processed(mime: string, data: Bytes, lib: Imaging): (Bytes, Option<Bytes>) {
    if "image/" <= mime then ProcessImage(data, lib) else (data, None)
  }

  /** `UploadCompleteOut`. */
  datatype Completed = Completed(mediaKey: string, mime: string, size: nat, thumbnailKey: Option<string>)

  /** The objects with the media, and its thumbnail if it has one, stored under fresh names. */
  function WithMedia(objects: map<Key, Bytes>, name: string, thumbName: string,
                     media: (Bytes, Option<Bytes>)): map<Key, Bytes> {
    (if media.1.Some? then objects[Named(thumbName) := media.1.value] else objects)[Named(name) := media.0]
  }

  /** What a finished upload has put in the store: the bytes themselves unless they are an image
      that gets shorter by encoding it anew, and a thumbnail of what decodes as an image. */
  ghost predicate MediaStored(before: map<Key, Bytes>, after: map<Key, Bytes>, name: string, thumbName: string,
                              mime: string, data: Bytes, lib: Imaging) {
    && Named(name) in after
    && (!("image/" <= mime) || !lib.decodes || |data| <= 512 * 1024 || |data| <= |lib.jpeg| ==>
          after[Named(name)] == data)
    && ("image/" <= mime && lib.decodes && 512 * 1024 < |data| && |lib.jpeg| < |data| ==>
          after[Named(name)] == lib.jpeg)
    && (thumbName != name ==>
          if "image/" <= mime && lib.decodes then Named(thumbName) in after && after[Named(thumbName)] == lib.thumb
          else SameAt(before, after, Named(thumbName)))
  }

  predicate SameAt(before: map<Key, Bytes>, after: map<Key, Bytes>, key: Key) {
    (key in before <==> key in after) && (key in before && key in after ==> before[key] == after[key])
  }

  ghost predicate NamedSame(before: map<Key, Bytes>, after: map<Key, Bytes>) {
    forall name :: SameAt(before, after, Named(name))
  }

  /** ... and what the client is told of it. */
  ghost predicate Tells(done: Completed, after: map<Key, Bytes>, name: string, thumbName: string, mime: string,
                        lib: Imaging) {
    && done.mediaKey == name && done.mime == mime && Named(name) in after && done.size == |after[Named(name)]|
    && done.thumbnailKey == if "image/" <= mime && lib.decodes then Some(thumbName) else None
  }

  lemma MissingSome(received: set<int>, n: nat)
    ensures Missing(received, n) != {} <==> exists i :: 0 <= i < n && i !in received
  {
    if i :| 0 <= i < n && i !in received { assert i in Missing(received, n); }
    if i :| i in Missing(received, n) { assert 0 <= i < n && i !in received; }
  }

  class MediaServer {
    var now: int
    var states: map<string, StateKey>
    var marks: map<string, MarkSet>
    const storage: StorageService

    constructor (storage: StorageService, now: int)
      ensures this.storage == storage && this.now == now && states == map[] && marks == map[]
    {
      this.storage := storage;
      this.now := now;
      states := map[];
      marks := map[];
    }

    function StateOf(id: string): StateKey
      reads this
    {
      if id in states then states[id] else Absent
    }

    function MarksOf(id: string): MarkSet
      reads this
    {
      if id in marks then marks[id] else NO_MARKS
    }

    ghost function View(id: string): Slot
      reads this, storage
    {
      Slot(StateOf(id), MarksOf(id), StagedOf(storage.objects, id))
    }

    ghost predicate Unused(id: string)
      reads this, storage
    {
      id !in states && id !in marks && StagedOf(storage.objects, id) == map[]
    }

    /** The upload is alive, and this user began it. */
    predicate Owned(id: string, user: string)
      reads this
    {
      id in states && states[id].Present? && now < states[id].expiry && states[id].meta.userId == user
    }

    /** The chunks counted as received, if the set has not run out. */
    function Received(id: string): set<int>
      reads this
    {
      if id in marks && (marks[id].expiry.Some? ==> now < marks[id].expiry.value) then marks[id].members else {}
    }

    /** `id` is the random token the server draws. */
    method UploadInit(id: string, user: string, filename: string, mime: string, size: nat)
      returns (r: Outcome<(nat, nat)>)
      requires Unused(id)
      modifies this`states
      ensures r == if !(0 < size <= MAX_UPLOAD_BYTES) || |filename| > FILENAME_LENGTH then Refused(422)
                   else if mime !in ALLOWED_MIME_TYPES then Refused(415)
                   else Ok((CHUNK_SIZE, CeilDiv(size, CHUNK_SIZE)))
      ensures r.Ok? ==> r.value.0 == 5 * 1024 * 1024 && 0 < size <= 50 * 1024 * 1024
      ensures r.Ok? ==> View(id) == InitSlot(now, user, mime, size) && states == old(states)[id := StateOf(id)]
      ensures r.Ok? ==>
                StateOf(id) == Present(Meta(user, mime, size, CeilDiv(size, CHUNK_SIZE)), now + 24 * 3600)
                && MarksOf(id).Live(now) == {}
      ensures r.Refused? ==> states == old(states)
    {
      if !(0 < size <= MAX_UPLOAD_BYTES) || |filename| > FILENAME_LENGTH {
        return Refused(422);
      }
      if mime !in ALLOWED_MIME_TYPES {
        return Refused(415);
      }
      var totalChunks := (size + CHUNK_SIZE - 1) / CHUNK_SIZE;
      states := states[id := Present(Meta(user, mime, size, totalChunks), now + UPLOAD_STATE_TTL)];
      return Ok((CHUNK_SIZE, totalChunks));
    }

    /** What a chunk request is refused with before it writes. */
    method CheckChunk(id: string, user: string, index: int, data: Bytes) returns (refusal: Option<nat>)
      ensures refusal == ChunkRefusal(View(id), now, user, index, data)
      ensures refusal == if !Owned(id, user) then Some(404)
                         else if !(0 <= index < StateOf(id).meta.totalChunks) || data == [] then Some(400)
                         else if |data| > CHUNK_SIZE then Some(413)
                         else None
    {
      var meta := StateOf(id).Load(now, user);
      if meta.None? { return Some(404); }
      if !(0 <= index < meta.value.totalChunks) { return Some(400); }
      if |data| > CHUNK_SIZE { return Some(413); }
      if data == [] { return Some(400); }
      return None;
    }

    /** `calls` says how many of the handler's three calls (PUT, SADD, EXPIRE) complete
        before the process dies; three or more is an undisturbed request. */
    method UploadChunk(id: string, user: string, index: int, data: Bytes, calls: nat) returns (r: Outcome<()>)
      modifies this`marks, storage
      ensures View(id) == old(ChunkAlone(now, View(id), user, index, data, calls))
      ensures var refusal := old(ChunkRefusal(View(id), now, user, index, data));
              && r == (if refusal.Some? then Refused(refusal.value) else if calls < 3 then Refused(500) else Ok(()))
              && (refusal.Some? ==> marks == old(marks) && storage.objects == old(storage.objects))
      ensures r == if !old(Owned(id, user)) then Refused(404)
                   else if !(0 <= index < StateOf(id).meta.totalChunks) || data == []
                   then Refused(400)
                   else if |data| > CHUNK_SIZE then Refused(413)
                   else if calls < 3 then Refused(500)
                   else Ok(())
      ensures r.Ok? || r == Refused(500) ==>
                storage.objects ==
                  if calls == 0 then old(storage.objects) else old(storage.objects)[Staged(id, index) := data]
      ensures marks - {id} == old(marks) - {id}
    {
      ChunkAloneIs(now, View(id), user, index, data, calls);
      var refusal := CheckChunk(id, user, index, data);
      if refusal.Some? { return Refused(refusal.value); }
      WriteChunk(id, index, data, calls);
      return if calls < 3 then Refused(500) else Ok(());
    }

    method WriteChunk(id: string, index: int, data: Bytes, calls: nat)
      modifies this`marks, storage
      ensures View(id) == Written(now, old(View(id)), index, data, calls)
      ensures storage.objects == if calls == 0 then old(storage.objects)
              else old(storage.objects)[Staged(id, index) := data]
      ensures marks - {id} == old(marks) - {id}
    {
      ghost var objects := storage.objects;
      if calls == 0 { return; }
      storage.PutObject(Staged(id, index), data);
      StagedPut(objects, id, index, data);
      if calls == 1 { return; }
      marks := marks[id := MarksOf(id).Add(now, index)];
      if calls == 2 { return; }
      marks := marks[id := MarksOf(id).Expire(now, UPLOAD_STATE_TTL)];
    }

    /** Received and missing chunks: the resume point. */
    method UploadStatus(id: string, user: string) returns (r: Outcome<(nat, set<int>, set<int>)>)
      ensures var meta := StateOf(id).Load(now, user);
              r == if meta.None? then Refused(404)
                   else var received := MarksOf(id).Live(now);
                        Ok((meta.value.totalChunks, received, Missing(received, meta.value.totalChunks)))
      ensures r == Refused(404) <==> !Owned(id, user)
      ensures r.Ok? ==> r.value.0 == states[id].meta.totalChunks && r.value.1 == Received(id)
      ensures r.Ok? ==> forall i :: i in r.value.2 <==> 0 <= i < r.value.0 && i !in r.value.1
    {
      var meta := StateOf(id).Load(now, user);
      if meta.None? {
        return Refused(404);
      }
      var received := MarksOf(id).Live(now);
      return Ok((meta.value.totalChunks, received, Missing(received, meta.value.totalChunks)));
    }

    /** `name` and `thumbName` are the random keys of the stored objects. */
    method UploadComplete(id: string, user: string, name: string, thumbName: string, lib: Imaging, outage: Outage)
      returns (r: Outcome<Completed>)
      modifies this`states, this`marks, storage
      ensures
        var meta := old(StateOf(id)).Load(now, user);
        var n := if meta.Some? then meta.value.totalChunks else 0;
        var data := Assembled(old(storage.objects), id, n);
        var removed := StagedKeys(id, n) !! outage.raises;
        if meta.None? then
          r == Refused(404) && states == old(states) && marks == old(marks) && storage.objects == old(storage.objects)
        else if Missing(old(MarksOf(id)).Live(now), n) != {} then
          r == Refused(409) && states == old(states) && marks == old(marks) && storage.objects == old(storage.objects)
        else if data.None? then
          r == Refused(500) && states == old(states) && marks == old(marks) && storage.objects == old(storage.objects)
        else if |data.value| != meta.value.totalSize then
          // The staged chunks go, but the upload still counts them as received.
          && r == Refused(if removed then 400 else 500) && states == old(states) && marks == old(marks)
          && Cleared(old(storage.objects), storage.objects, id, n, outage)
        else
          var media := Processed(meta.value.mime, data.value, lib);
          && Cleared(WithMedia(old(storage.objects), name, thumbName, media), storage.objects, id, n, outage)
          && MediaStored(old(storage.objects), storage.objects, name, thumbName, meta.value.mime, data.value, lib)
          && (removed ==> r.Ok? && Tells(r.value, storage.objects, name, thumbName, meta.value.mime, lib)
                          && states == old(states) - {id} && marks == old(marks) - {id})
          && (!removed ==> r == Refused(500) && states == old(states) && marks == old(marks))
      ensures r == Refused(404) <==> !old(Owned(id, user))
      ensures r == Refused(404) ==> states == old(states) && marks == old(marks)
                                    && storage.objects == old(storage.objects)
      ensures r == Refused(409) <==>
                old(Owned(id, user))
                && exists i :: 0 <= i < old(StateOf(id)).meta.totalChunks && i !in old(Received(id))
      // If no deletion fails, the handler of the interleaved model run alone ends in this state,
      // and what it stores is the joined chunks.
      ensures
        var meta := old(StateOf(id)).Load(now, user);
        var n := if meta.Some? then meta.value.totalChunks else 0;
        StagedKeys(id, n) !! outage.raises ==>
          FinishesAlone(now, old(View(id)), user, View(id),
                        if r.Ok? then [Assembled(old(storage.objects), id, n).value] else [])
    {
      var meta := StateOf(id).Load(now, user);
      ghost var slot, objects := View(id), storage.objects;
      if meta.None? {
        RefusedAtOnce(now, slot, user);
        return Refused(404);
      }
      var n := meta.value.totalChunks;
      MissingSome(Received(id), n);
      if Missing(MarksOf(id).Live(now), n) != {} {
        RefusedAtOnce(now, slot, user);
        return Refused(409);
      }
      var data := storage.AssembleStaging(id, n);
      AssembledIsJoin(objects, id, n);
      if data.None? {
        ReadFails(now, slot, user, meta.value, objects, id);
        return Refused(500);
      }
      CompletesAlone(now, slot, user, meta.value, objects, id, data.value);
      r := Conclude(id, meta.value, data.value, name, thumbName, lib, outage);
    }

    /** Once all chunks have been read. */
    method Conclude(id: string, meta: Meta, data: Bytes, name: string, thumbName: string, lib: Imaging,
                    outage: Outage)
      returns (r: Outcome<Completed>)
      modifies this`states, this`marks, storage
      ensures
        var n := meta.totalChunks;
        var removed := StagedKeys(id, n) !! outage.raises;
        if |data| != meta.totalSize then
          && r == Refused(if removed then 400 else 500) && states == old(states) && marks == old(marks)
          && Cleared(old(storage.objects), storage.objects, id, n, outage)
        else
          && Cleared(WithMedia(old(storage.objects), name, thumbName, Processed(meta.mime, data, lib)),
                     storage.objects, id, n, outage)
          && MediaStored(old(storage.objects), storage.objects, name, thumbName, meta.mime, data, lib)
          && (removed ==> r.Ok? && Tells(r.value, storage.objects, name, thumbName, meta.mime, lib)
                          && states == old(states) - {id} && marks == old(marks) - {id})
          && (!removed ==> r == Refused(500) && states == old(states) && marks == old(marks))
      ensures StagedKeys(id, meta.totalChunks) !! outage.raises ==>
                View(id) == var left := Left(old(View(id)), meta.totalChunks);
                            if r.Ok? then left.(state := Absent, marks := NO_MARKS) else left
    {
      ghost var objects := storage.objects;
      var n := meta.totalChunks;
      StagedCleared(objects, id, n);
      if |data| != meta.totalSize {
        var ok := storage.DeleteStaging(id, n, outage);
        return Refused(if ok then 400 else 500);
      }
      var done := StoreMedia(name, thumbName, meta.mime, data, lib);
      MediaAside(objects, name, thumbName, Processed(meta.mime, data, lib), id);
      ghost var stored := storage.objects;
      StagedCleared(stored, id, n);
      var ok := storage.DeleteStaging(id, n, outage);
      MediaStays(objects, stored, storage.objects, name, thumbName, meta.mime, data, lib, id, n, outage);
      if !ok {
        return Refused(500);
      }
      states := states - {id};
      marks := marks - {id};
      return Ok(done);
    }

    method StoreMedia(name: string, thumbName: string, mime: string, data: Bytes, lib: Imaging)
      returns (done: Completed)
      modifies storage
      ensures storage.objects == WithMedia(old(storage.objects), name, thumbName, Processed(mime, data, lib))
      ensures MediaStored(old(storage.objects), storage.objects, name, thumbName, mime, data, lib)
      ensures Tells(done, storage.objects, name, thumbName, mime, lib)
    {
      var thumbnailKey: Option<string> := None;
      var assembled := data;
      if "image/" <= mime {
        var media := ProcessImage(assembled, lib);
        assembled := media.0;
        if media.1.Some? {
          storage.PutObject(Named(thumbName), media.1.value);
          thumbnailKey := Some(thumbName);
        }
      }
      storage.PutObject(Named(name), assembled);
      return Completed(name, mime, |assembled|, thumbnailKey);
    }
  }

  /** Named objects are no staged ones. */
  lemma MediaAside(objects: map<Key, Bytes>, name: string, thumbName: string, media: (Bytes, Option<Bytes>), id: string)
    ensures StagedOf(WithMedia(objects, name, thumbName, media), id) == StagedOf(objects, id)
  {
    StagedNamed(objects, id, thumbName, if media.1.Some? then media.1.value else []);
    StagedNamed(if media.1.Some? then objects[Named(thumbName) := media.1.value] else objects, id, name, media.0);
  }

  lemma MediaStays(before: map<Key, Bytes>, stored: map<Key, Bytes>, after: map<Key, Bytes>, name: string,
                   thumbName: string, mime: string, data: Bytes, lib: Imaging, id: string, n: nat, outage: Outage)
    requires MediaStored(before, stored, name, thumbName, mime, data, lib) && Cleared(stored, after, id, n, outage)
    ensures MediaStored(before, after, name, thumbName, mime, data, lib)
    ensures Named(name) in stored && after[Named(name)] == stored[Named(name)]
  {
    assert SameAt(stored, after, Named(name)) && SameAt(stored, after, Named(thumbName));
  }

  /** The staged chunks of an upload are gone, or deletion stopped at the first that raised. */
  ghost predicate Cleared(before: map<Key, Bytes>, after: map<Key, Bytes>, id: string, n: nat, outage: Outage) {
    if StagedKeys(id, n) !! outage.raises then after == before - StagedKeys(id, n)
    else exists i :: StoppedAt(before, after, id, n, outage, i)
  }
}
