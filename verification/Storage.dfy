/** The object store, as `StorageService` uses it.  Removing a missing object is not an error;
    any other failure of the store is an input. */
module Storage {
  import opened Common
  import opened Slicing

  datatype Key = Staged(upload: string, index: int) | Named(name: string)

  /** Removals the store will fail: all of `raises`, and those in `lost` have nevertheless
      taken effect. */
  datatype Outage = Outage(raises: set<Key>, lost: set<Key>)

  const HEALTHY := Outage({}, {})

  /** The first `n` staged chunks joined, if none is missing. */
  function Assembled(objects: map<Key, Bytes>, id: string, n: nat): Option<Bytes> {
    if n == 0 then Some([])
    else
      var front := Assembled(objects, id, n - 1);
      if front.None? || Staged(id, n - 1) !in objects then None
      else Some(front.value + objects[Staged(id, n - 1)])
  }

  function StagedKeys(id: string, n: nat): set<Key> {
    set i: int | 0 <= i < n :: Staged(id, i)
  }

  ghost predicate AllStaged(objects: map<Key, Bytes>, id: string, n: nat) {
    forall i: int | 0 <= i < n :: Staged(id, i) in objects
  }

  /** Staged chunks as a list, to compare with a cut of the file. */
  function StagedParts(objects: map<Key, Bytes>, id: string, n: nat): seq<Bytes>
    requires AllStaged(objects, id, n)
  {
    seq(n, (i: nat) requires i < n && AllStaged(objects, id, n) => objects[Staged(id, i)])
  }

  lemma {:induction false} AssembledIsJoin(objects: map<Key, Bytes>, id: string, n: nat)
    ensures Assembled(objects, id, n).Some? <==> AllStaged(objects, id, n)
    ensures AllStaged(objects, id, n) ==> Assembled(objects, id, n) == Some(Join(StagedParts(objects, id, n)))
  {
    if n > 0 {
      AssembledIsJoin(objects, id, n - 1);
      if AllStaged(objects, id, n) {
        assert StagedParts(objects, id, n)[..n - 1] == StagedParts(objects, id, n - 1);
      }
    }
  }

  /** The first removal to raise is that of chunk `i`: those before it are gone, those after it
      stay, and so does `i` itself unless its removal has taken effect all the same. */
  ghost predicate StoppedAt(before: map<Key, Bytes>, after: map<Key, Bytes>, id: string, n: nat, outage: Outage,
                            i: nat) {
    && i < n && Staged(id, i) in outage.raises && StagedKeys(id, i) !! outage.raises
    && after == before - StagedKeys(id, if Staged(id, i) in outage.lost then i + 1 else i)
  }

  class StorageService {
    var objects: map<Key, Bytes>

    constructor ()
      ensures objects == map[]
    {
      objects := map[];
    }

    method PutObject(key: Key, data: Bytes)
      modifies this
      ensures objects == old(objects)[key := data]
    {
      objects := objects[key := data];
    }

    method AssembleStaging(id: string, n: nat) returns (data: Option<Bytes>)
      ensures data == Assembled(objects, id, n)
    {
      var joined: Bytes := [];
      for i := 0 to n
        invariant Assembled(objects, id, i) == Some(joined)
      {
        if Staged(id, i) !in objects {
          MissingStays(objects, id, i, n);
          return None;
        }
        joined := joined + objects[Staged(id, i)];
      }
      return Some(joined);
    }

    /** `delete_object`: true unless the store raised something other than NoSuchKey. */
    method DeleteObject(key: Key, outage: Outage) returns (ok: bool)
      modifies this
      ensures ok <==> key !in outage.raises
      ensures objects == if ok || key in outage.lost then old(objects) - {key} else old(objects)
    {
      ok := key !in outage.raises;
      if ok || key in outage.lost {
        objects := objects - {key};
      }
    }

    /** Stops at the first removal that raises. */
    method DeleteStaging(id: string, n: nat, outage: Outage) returns (ok: bool)
      modifies this
      ensures ok <==> StagedKeys(id, n) !! outage.raises
      ensures ok ==> objects == old(objects) - StagedKeys(id, n)
      ensures !ok ==> exists i :: StoppedAt(old(objects), objects, id, n, outage, i)
      ensures !ok ==> objects.Keys <= old(objects).Keys && forall k | k in objects :: objects[k] == old(objects)[k]
      ensures forall k | k in old(objects) && k !in StagedKeys(id, n) :: k in objects
    {
      for i := 0 to n
        invariant StagedKeys(id, i) !! outage.raises
        invariant objects == old(objects) - StagedKeys(id, i)
      {
        assert StagedKeys(id, i + 1) == StagedKeys(id, i) + {Staged(id, i)};
        var removed := DeleteObject(Staged(id, i), outage);
        if !removed {
          assert Staged(id, i) in StagedKeys(id, n);
          assert forall k | k in StagedKeys(id, i + 1) :: k in StagedKeys(id, n);
          assert StoppedAt(old(objects), objects, id, n, outage, i);
          return false;
        }
      }
      return true;
    }
  }

  lemma {:induction false} MissingStays(objects: map<Key, Bytes>, id: string, i: nat, n: nat)
    requires i < n && Staged(id, i) !in objects
    ensures Assembled(objects, id, n).None?
  {
    AssembledIsJoin(objects, id, n);
  }
}
