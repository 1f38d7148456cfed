/**
 * The persisted edit store the chunk writes through to. Its implementation
 * lives outside the chunk; the chunk only relies on `contains`, `get` and
 * `set`, and a `set` being visible to later reads of the same key.
 */
module EditStore {
  import opened Blocks

  /** (chunk origin x, chunk origin z, local x, local y, local z) */
  datatype EditKey = EditKey(chunkX: int, chunkZ: int, x: int, y: int, z: int)

  class DataStore {
    var edits: map<EditKey, int>

    /** Every stored value is a registered block id (only addBlock and removeBlock write). */
    ghost predicate Valid()
      reads this
    {
      forall k :: k in edits ==> IsBlockId(edits[k])
    }

    constructor ()
      ensures edits == map[] && Valid()
    {
      edits := map[];
    }

    function Contains(k: EditKey): bool
      reads this
    {
      k in edits
    }

    function Get(k: EditKey): int
      reads this
      requires k in edits
    {
      edits[k]
    }

    /** set: a later read of k sees id; every other key reads as before. */
    method Set(k: EditKey, id: int)
      modifies this
      ensures edits == old(edits)[k := id]
      ensures Contains(k) && Get(k) == id
      ensures forall k' :: k' != k ==> (Contains(k') <==> old(Contains(k')))
      ensures forall k' :: k' != k && Contains(k') ==> Get(k') == old(edits[k'])
    {
      edits := edits[k := id];
    }
  }
}
