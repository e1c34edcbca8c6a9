/** The two Redis keys of one upload and its staged objects. */
module UploadState {
  import opened Common
  import opened Slicing

  /** Incomplete uploads survive 24 h. */
  const UPLOAD_STATE_TTL: nat := 24 * 3600

  datatype Meta = Meta(userId: string, mime: string, totalSize: nat, totalChunks: nat)

  /** Key `upload:{id}`: written once with a TTL, never refreshed. */
  datatype StateKey = Absent | Present(meta: Meta, expiry: int) {

    function Get(now: int): Option<Meta> {
      if Present? && now < expiry then Some(meta) else None
    }

    /** `_load_state`: another user's upload reads like an unknown one. */
    function Load(now: int, user: string): Option<Meta> {
      if Get(now).Some? && Get(now).value.userId == user then Get(now) else None
    }
  }

  /** Key `upload:chunks:{id}`: a set that SADD creates without a TTL. */
  datatype MarkSet = MarkSet(members: set<int>, expiry: Option<int>) {

    function Live(now: int): set<int> {
      if expiry.Some? && expiry.value <= now then {} else members
    }

    function Add(now: int, i: int): MarkSet {
      if Live(now) == {} then MarkSet({i}, None) else MarkSet(members + {i}, expiry)
    }

    function Expire(now: int, ttl: nat): MarkSet {
      if Live(now) == {} then this else this.(expiry := Some(now + ttl))
    }
  }

  const NO_MARKS := MarkSet({}, None)

  /** Everything the server keeps about one upload id. */
  datatype Slot = Slot(state: StateKey, marks: MarkSet, staged: map<int, Bytes>)

  function InitSlot(now: int, user: string, mime: string, size: nat): Slot {
    Slot(Present(Meta(user, mime, size, CeilDiv(size, CHUNK_SIZE)), now + UPLOAD_STATE_TTL),
         NO_MARKS, map[])
  }

  /** The checks of `upload_chunk`, before anything is written. */
  function ChunkRefusal(slot: Slot, now: int, user: string, index: int, data: Bytes): Option<nat> {
    var meta := slot.state.Load(now, user);
    if meta.None? then Some(404)
    else if !(0 <= index < meta.value.totalChunks) then Some(400)
    else if |data| > CHUNK_SIZE then Some(413)
    else if data == [] then Some(400)
    else None
  }

  function Missing(received: set<int>, total: nat): set<int> {
    set i: int | 0 <= i < total && i !in received
  }
}
