/** The cached table keeps the contracts the file code is proved against: those of the flat volume, on its links. */
module TableRefinement {
  import opened Wrappers
  import V = Volume
  import T = TableCache

  ghost function Links(table: seq<T.Block>): seq<nat> {
    seq(128 * |table|, id requires 0 <= id < 128 * |table| => T.At(table, id))
  }

  /** A store in the blocks is a store in the links. */
  lemma StoreAgrees(table: seq<T.Block>, id: nat, value: T.Word)
    requires id < 128 * |table|
    ensures Links(T.Put(table, id, value)) == Links(table)[id := T.Link(value)]
  {
    forall other | 0 <= other < 128 * |table|
      ensures Links(T.Put(table, id, value))[other] == Links(table)[id := T.Link(value)][other]
    {
      T.PutAt(table, id, value, other);
    }
  }

  lemma FreeAgrees(table: seq<T.Block>)
    ensures forall id: nat :: T.Free(table, id) <==> id in V.FreeSet(Links(table))
  {
  }

  lemma PoolAgrees(table: seq<T.Block>, pool: seq<nat>)
    ensures T.PoolSound(table, pool) <==> V.IsFreePool(Links(table), pool)
  {
    if T.PoolSound(table, pool) {
      forall i | 0 <= i < |pool| ensures pool[i] < |Links(table)| && Links(table)[pool[i]] == 0 {
        assert T.Free(table, pool[i]);
      }
    }
    if V.IsFreePool(Links(table), pool) {
      forall i | 0 <= i < |pool| ensures T.Free(table, pool[i]) { assert Links(table)[pool[i]] == 0; }
    }
  }

  /** What the file code assumes of a mounted table. */
  ghost predicate Serves(fs: T.FileSystem) reads fs {
    && fs.Valid() && V.IsFreePool(Links(fs.table), fs.freePool)
    && fs.table != [] && Links(fs.table)[0] != 0
  }

  method GetSectorEntryValue(fs: T.FileSystem, id: nat) returns (r: Option<nat>)
    requires Serves(fs) && id != |Links(fs.table)|
    modifies fs`disk, fs`cache
    ensures Serves(fs) && r == if id < |Links(fs.table)| then Some(Links(fs.table)[id]) else None
  {
    r := fs.GetSectorEntryValue(id);
  }

  method SetSectorEntryValue(fs: T.FileSystem, id: nat, value: nat) returns (ok: bool)
    requires Serves(fs) && id != |Links(fs.table)| && value <= V.EOC
    requires id < |Links(fs.table)| && value != 0 ==> id !in fs.freePool
    requires id == 0 ==> value != 0
    modifies fs
    ensures Serves(fs) && ok == (id < |Links(old(fs.table))|)
    ensures Links(fs.table) == if ok then Links(old(fs.table))[id := value] else Links(old(fs.table))
  {
    if id < |Links(fs.table)| { StoreAgrees(fs.table, id, value); }
    ok := fs.SetSectorEntryValue(id, value);
  }

  method AllocateSector(fs: T.FileSystem) returns (r: Option<nat>)
    requires Serves(fs) && fs.NextRefillSound()
    modifies fs
    ensures Serves(fs)
    ensures r.None? <==> V.FreeSet(Links(old(fs.table))) == {}
    ensures r.None? ==> Links(fs.table) == Links(old(fs.table))
    ensures r.Some? ==> 0 < r.value < |Links(fs.table)| == |Links(old(fs.table))| && Links(old(fs.table))[r.value] == 0
    ensures r.Some? ==> Links(fs.table) == Links(old(fs.table))[r.value := V.EOC] && r.value !in fs.freePool
    ensures old(fs.freePool) != [] ==> r == Some(old(fs.freePool)[0]) && fs.freePool == old(fs.freePool)[1..]
  {
    ghost var was := fs.table;
    PoolAgrees(was, fs.freePool);
    FreeAgrees(was);
    r := fs.AllocateSector();
    PoolAgrees(fs.table, fs.freePool);
    if r.Some? { StoreAgrees(was, r.value, V.EOC); }
  }

  method DeAllocateSector(fs: T.FileSystem, id: nat) returns (next: nat)
    requires Serves(fs) && 0 < id < |Links(fs.table)| && Links(fs.table)[id] != 0
    modifies fs
    ensures Serves(fs) && next == Links(old(fs.table))[id] && Links(fs.table) == Links(old(fs.table))[id := 0]
    ensures fs.freePool == if |old(fs.freePool)| < fs.poolSize then old(fs.freePool) + [id] else old(fs.freePool)
  {
    PoolAgrees(fs.table, fs.freePool);
    StoreAgrees(fs.table, id, 0);
    next := fs.DeAllocateSector(id);
    PoolAgrees(fs.table, fs.freePool);
  }
}
