/**
 The allocation table behind its sorted, write-back block cache, the queue of free sectors refilled by
 scanning, and the count of used sectors.  Table words are 32 bits; masks are written as arithmetic, so
 `x & EOC` is `x % 2^28` and clearing those bits leaves `x - x % 2^28`.
 */
module TableCache {
  import opened Wrappers

  const EOC := 0x0FFF_FFFF
  const MAX_SECTORS_IN_TABLE_CACHE := 2048

  type Word = w: int | 0 <= w < 0x1_0000_0000
  /** One sector of the table: 128 words. */
  type Block = s: seq<Word> | |s| == 128 witness seq(128, _ => 0)

  function Link(w: Word): nat { w % 0x1000_0000 }

  /** The word that stores link `value` and keeps the top four bits of `w`. */
  function Merge(w: Word, value: Word): (r: Word)
    ensures Link(r) == Link(value) && r / 0x1000_0000 == w / 0x1000_0000
  {
    w - w % 0x1000_0000 + value % 0x1000_0000
  }

  datatype SectorBlockEntry = SectorBlockEntry(blockId: nat, block: Block, readCount: nat, writeCount: nat)
  {
    function Read(id: nat): (SectorBlockEntry, nat) {
      (this.(readCount := readCount + 1), Link(block[id % 128]))
    }

    function Write(id: nat, value: Word): SectorBlockEntry {
      this.(block := block[id % 128 := Merge(block[id % 128], value)], writeCount := writeCount + 1)
    }
  }

  ghost predicate Sorted(cache: seq<SectorBlockEntry>) {
    forall i, j :: 0 <= i < j < |cache| ==> cache[i].blockId < cache[j].blockId
  }

  predicate Cached(cache: seq<SectorBlockEntry>, b: nat) {
    exists i :: 0 <= i < |cache| && cache[i].blockId == b
  }

  /** Finds block `b`, or the position that keeps the cache sorted when it is inserted there. */
  method BinarySearch(cache: seq<SectorBlockEntry>, b: nat) returns (found: bool, pos: int)
    requires Sorted(cache)
    ensures found <==> Cached(cache, b)
    ensures found ==> 0 <= pos < |cache| && cache[pos].blockId == b
    ensures !found ==> 0 <= pos <= |cache|
    ensures !found ==> forall i :: 0 <= i < |cache| ==> if i < pos then cache[i].blockId < b else b < cache[i].blockId
  {
    var low, high := 0, |cache| - 1;
    pos := -1;
    while low <= high
      invariant 0 <= low <= high + 1 <= |cache|
      invariant forall i :: 0 <= i < low ==> cache[i].blockId < b
      invariant forall i :: high < i < |cache| ==> b < cache[i].blockId
      invariant pos == -1 ==> low == 0 && high == |cache| - 1
      invariant pos != -1 ==> pos == low || pos == high + 1
      invariant pos != -1 ==> 0 <= pos
    {
      var mid := (low + high) / 2;
      if b == cache[mid].blockId {
        return true, mid;
      }
      if b < cache[mid].blockId {
        high := mid - 1;
        pos := high + 1;
      } else {
        low := mid + 1;
        pos := low;
      }
    }
    if pos < 0 {
      pos := 0;
    } else if pos >= |cache| {
      pos := |cache|;
    }
    return false, pos;
  }

  // ---------------------------------------------------------------- the flat table

  function At(table: seq<Block>, id: nat): nat
    requires id < 128 * |table|
  {
    Link(table[id / 128][id % 128])
  }

  function Put(table: seq<Block>, id: nat, value: Word): seq<Block>
    requires id < 128 * |table|
  {
    table[id / 128 := table[id / 128][id % 128 := Merge(table[id / 128][id % 128], value)]]
  }

  /** In the flat table a store changes one link and no top bits. */
  lemma PutAt(table: seq<Block>, id: nat, value: Word, other: nat)
    requires id < 128 * |table| && other < 128 * |table|
    ensures At(Put(table, id, value), other) == if other == id then Link(value) else At(table, other)
    ensures Put(table, id, value)[other / 128][other % 128] / 0x1000_0000 ==
            table[other / 128][other % 128] / 0x1000_0000
  {
    if other / 128 == id / 128 && other % 128 == id % 128 {
      assert other == id;
    }
  }

  ghost function UsedSet(table: seq<Block>): set<nat> {
    set id | 0 <= id < 128 * |table| && At(table, id) != 0
  }

  ghost predicate Free(table: seq<Block>, id: nat) {
    id < 128 * |table| && At(table, id) == 0
  }

  /** How storing `value` moves the counter of used sectors. */
  function UsedChange(value: Word): int {
    if value == EOC then 1 else if value == 0 then -1 else 0
  }

  /**
   The counter follows the number of used entries exactly when the end mark is stored in a free entry and every
   other value in a used one.
   */
  lemma UsedCountExact(table: seq<Block>, id: nat, value: Word)
    requires id < 128 * |table| && value <= EOC
    ensures |UsedSet(Put(table, id, value))| == |UsedSet(table)| + UsedChange(value)
            <==> (if value == EOC then Free(table, id) else !Free(table, id))
  {
    var now := Put(table, id, value);
    forall x | 0 <= x < 128 * |table| ensures At(now, x) == if x == id then Link(value) else At(table, x) {
      PutAt(table, id, value, x);
    }
    var rest := UsedSet(table) - {id};
    assert UsedSet(now) - {id} == rest;
    assert UsedSet(table) == if Free(table, id) then rest else rest + {id};
    assert UsedSet(now) == if value == 0 then rest else rest + {id};
  }

  // ---------------------------------------------------------------- what a refill scans

  /** The ids of the free entries among table words that start at id `base`. */
  function FreeOf(words: seq<Word>, base: nat): seq<nat> {
    if words == [] then []
    else
      var j := |words| - 1;
      FreeOf(words[..j], base) + (if Link(words[j]) == 0 then [base + j] else [])
  }

  function CachedFree(cache: seq<SectorBlockEntry>, i: nat): seq<nat>
    requires i <= |cache|
    decreases |cache| - i
  {
    if i == |cache| then [] else FreeOf(cache[i].block, 128 * cache[i].blockId) + CachedFree(cache, i + 1)
  }

  function BatchFree(disk: seq<Block>, b: nat, n: nat): seq<nat>
    requires b + n <= |disk|
    decreases n
  {
    if n == 0 then [] else FreeOf(disk[b], 128 * b) + BatchFree(disk, b + 1, n - 1)
  }

  function BatchSize(disk: seq<Block>, b: nat): nat
    requires b < |disk|
  {
    if |disk| - b > 8 then 8 else |disk| - b
  }

  /** The disk scan: cached blocks are skipped at a batch's head only, the rest of a batch is taken as read. */
  function DiskFree(disk: seq<Block>, cache: seq<SectorBlockEntry>, b: nat): seq<nat>
    decreases |disk| - b
  {
    if b >= |disk| then []
    else if Cached(cache, b) then DiskFree(disk, cache, b + 1)
    else BatchFree(disk, b, BatchSize(disk, b)) + DiskFree(disk, cache, b + BatchSize(disk, b))
  }

  ghost predicate Increasing(s: seq<nat>) {
    forall i, j :: 0 <= i < j < |s| ==> s[i] < s[j]
  }

  ghost predicate Within(s: seq<nat>, lo: nat, hi: nat) {
    forall i :: 0 <= i < |s| ==> lo <= s[i] < hi
  }

  lemma JoinIncreasing(s: seq<nat>, t: seq<nat>, lo: nat, mid: nat, hi: nat)
    requires Increasing(s) && Within(s, lo, mid) && Increasing(t) && Within(t, mid, hi) && lo <= mid <= hi
    ensures Increasing(s + t) && Within(s + t, lo, hi)
  {
  }

  lemma {:induction false} FreeOfOrder(words: seq<Word>, base: nat)
    ensures Increasing(FreeOf(words, base)) && Within(FreeOf(words, base), base, base + |words|)
  {
    if words != [] { FreeOfOrder(words[..|words| - 1], base); }
  }

  lemma {:induction false} FreeOfHas(words: seq<Word>, base: nat, id: nat)
    ensures id in FreeOf(words, base) <==> base <= id < base + |words| && Link(words[id - base]) == 0
  {
    if words != [] { FreeOfHas(words[..|words| - 1], base, id); }
  }

  lemma {:induction false} BatchFreeOrder(disk: seq<Block>, b: nat, n: nat)
    requires b + n <= |disk|
    ensures Increasing(BatchFree(disk, b, n)) && Within(BatchFree(disk, b, n), 128 * b, 128 * (b + n))
    decreases n
  {
    if n > 0 {
      var f, rest := FreeOf(disk[b], 128 * b), BatchFree(disk, b + 1, n - 1);
      assert BatchFree(disk, b, n) == f + rest;
      FreeOfOrder(disk[b], 128 * b);
      BatchFreeOrder(disk, b + 1, n - 1);
      JoinIncreasing(f, rest, 128 * b, 128 * b + 128, 128 * b + 128 * n);
    }
  }

  lemma BatchFreeNext(disk: seq<Block>, b: nat, k: nat, n: nat, done: seq<nat>)
    requires b + n <= |disk| && k < n
    ensures done + RestFree(disk, b, k, n) == done + FreeOf(disk[b + k], 128 * (b + k)) + RestFree(disk, b, k + 1, n)
  {
    assert BatchFree(disk, b + k, n - k) ==
           FreeOf(disk[b + k], 128 * (b + k)) + BatchFree(disk, b + k + 1, n - k - 1);
  }

  /** The free ids of a batch behind its first `k` blocks. */
  function RestFree(disk: seq<Block>, b: nat, k: nat, n: nat): seq<nat>
    requires b + n <= |disk| && k <= n
  {
    BatchFree(disk, b + k, n - k)
  }

  lemma {:induction false} BatchFreeHas(disk: seq<Block>, b: nat, n: nat, id: nat)
    requires b + n <= |disk|
    ensures id in BatchFree(disk, b, n) <==> b <= id / 128 < b + n && Free(disk, id)
    decreases n
  {
    if n > 0 {
      var f, rest := FreeOf(disk[b], 128 * b), BatchFree(disk, b + 1, n - 1);
      assert BatchFree(disk, b, n) == f + rest;
      FreeOfHas(disk[b], 128 * b, id);
      BatchFreeHas(disk, b + 1, n - 1, id);
      assert id in f <==> id / 128 == b && Link(disk[b][id % 128]) == 0;
    }
  }

  lemma {:induction false} DiskFreeOrder(disk: seq<Block>, cache: seq<SectorBlockEntry>, b: nat)
    requires b <= |disk|
    ensures Increasing(DiskFree(disk, cache, b)) && Within(DiskFree(disk, cache, b), 128 * b, 128 * |disk|)
    decreases |disk| - b
  {
    if b == |disk| {
    } else if Cached(cache, b) {
      DiskFreeOrder(disk, cache, b + 1);
    } else {
      var n := BatchSize(disk, b);
      BatchFreeOrder(disk, b, n);
      DiskFreeOrder(disk, cache, b + n);
      JoinIncreasing(BatchFree(disk, b, n), DiskFree(disk, cache, b + n), 128 * b, 128 * (b + n), 128 * |disk|);
    }
  }

  /** The disk scan finds every free entry of an uncached block, and only entries free on disk. */
  lemma {:induction false} DiskFreeHas(disk: seq<Block>, cache: seq<SectorBlockEntry>, b: nat, id: nat)
    requires b <= |disk|
    ensures id in DiskFree(disk, cache, b) ==> Free(disk, id)
    ensures Free(disk, id) && b <= id / 128 && !Cached(cache, id / 128) ==> id in DiskFree(disk, cache, b)
    decreases |disk| - b
  {
    if b == |disk| {
    } else if Cached(cache, b) {
      DiskFreeHas(disk, cache, b + 1, id);
    } else {
      var n := BatchSize(disk, b);
      var batch, behind := BatchFree(disk, b, n), DiskFree(disk, cache, b + n);
      assert DiskFree(disk, cache, b) == batch + behind;
      assert id in batch + behind <==> id in batch || id in behind;
      BatchFreeHas(disk, b, n, id);
      DiskFreeHas(disk, cache, b + n, id);
    }
  }

  lemma {:induction false} CachedFreeOrder(cache: seq<SectorBlockEntry>, i: nat, hi: nat)
    requires i <= |cache| && Sorted(cache) && forall k :: 0 <= k < |cache| ==> cache[k].blockId < hi
    ensures Increasing(CachedFree(cache, i))
    ensures Within(CachedFree(cache, i), if i < |cache| then 128 * cache[i].blockId else 0, 128 * hi)
    decreases |cache| - i
  {
    if i < |cache| {
      var e := cache[i];
      FreeOfOrder(e.block, 128 * e.blockId);
      CachedFreeOrder(cache, i + 1, hi);
      if i + 1 < |cache| { assert e.blockId + 1 <= cache[i + 1].blockId; }
      var lo, mid := 128 * e.blockId, 128 * (e.blockId + 1);
      JoinIncreasing(FreeOf(e.block, lo), CachedFree(cache, i + 1), lo, mid, 128 * hi);
    }
  }

  ghost predicate FreeInCache(cache: seq<SectorBlockEntry>, k: nat, id: nat) {
    k < |cache| && cache[k].blockId == id / 128 && Link(cache[k].block[id % 128]) == 0
  }

  lemma {:induction false} CachedFreeHas(cache: seq<SectorBlockEntry>, i: nat, id: nat)
    requires i <= |cache|
    ensures id in CachedFree(cache, i) <==> exists k :: i <= k && FreeInCache(cache, k, id)
    decreases |cache| - i
  {
    if i < |cache| {
      FreeOfHas(cache[i].block, 128 * cache[i].blockId, id);
      CachedFreeHas(cache, i + 1, id);
      var f, rest := FreeOf(cache[i].block, 128 * cache[i].blockId), CachedFree(cache, i + 1);
      assert CachedFree(cache, i) == f + rest;
      assert id in f <==> FreeInCache(cache, i, id);
    }
  }

  // ---------------------------------------------------------------- when a refill is sound

  /** Disk and cache agree with the flat table, except that a written cached block may be ahead of its sector. */
  ghost predicate Coherent(disk: seq<Block>, cache: seq<SectorBlockEntry>, table: seq<Block>) {
    && |disk| == |table|
    && Sorted(cache)
    && (forall i :: 0 <= i < |cache| ==> cache[i].blockId < |table| && cache[i].block == table[cache[i].blockId])
    && (forall i :: 0 <= i < |cache| && cache[i].writeCount == 0 ==> disk[cache[i].blockId] == table[cache[i].blockId])
    && (forall b :: 0 <= b < |table| && !Cached(cache, b) ==> disk[b] == table[b])
  }

  ghost predicate PoolSound(table: seq<Block>, pool: seq<nat>) {
    && (forall i :: 0 <= i < |pool| ==> Free(table, pool[i]))
    && (forall i, j :: 0 <= i < j < |pool| ==> pool[i] != pool[j])
  }

  function Take(s: seq<nat>, n: nat): seq<nat> { if |s| <= n then s else s[..n] }

  /** What a refill of the empty queue leaves in it. */
  function Refilled(disk: seq<Block>, cache: seq<SectorBlockEntry>, size: nat): seq<nat> {
    Take(CachedFree(cache, 0) + DiskFree(disk, cache, 0), size)
  }

  // what a refill takes from cached blocks, by where they lie

  function FreeCount(words: seq<Word>): nat {
    if words == [] then 0
    else FreeCount(words[..|words| - 1]) + if Link(words[|words| - 1]) == 0 then 1 else 0
  }

  /** Of the `n` blocks from `b` on, read in one go with `room` places left, the cached ones yield nothing. */
  predicate BatchClear(disk: seq<Block>, cache: seq<SectorBlockEntry>, b: nat, n: nat, room: int)
    requires b + n <= |disk|
    decreases n
  {
    n == 0 ||
    (var k := FreeCount(disk[b]);
     (room > 0 && Cached(cache, b) ==> k == 0) && BatchClear(disk, cache, b + 1, n - 1, room - k))
  }

  function BatchCount(disk: seq<Block>, b: nat, n: nat): nat
    requires b + n <= |disk|
    decreases n
  {
    if n == 0 then 0 else FreeCount(disk[b]) + BatchCount(disk, b + 1, n - 1)
  }

  /** Until the queue is full, every cached block behind the head of a batch has no zero link on disk. */
  predicate BatchesClear(disk: seq<Block>, cache: seq<SectorBlockEntry>, b: nat, room: int)
    decreases |disk| - b
  {
    if b >= |disk| then true
    else if Cached(cache, b) then BatchesClear(disk, cache, b + 1, room)
    else
      var n := BatchSize(disk, b);
      BatchClear(disk, cache, b, n, room) && BatchesClear(disk, cache, b + n, room - BatchCount(disk, b, n))
  }

  function CachedCount(cache: seq<SectorBlockEntry>, i: nat): nat
    requires i <= |cache|
    decreases |cache| - i
  {
    if i == |cache| then 0 else FreeCount(cache[i].block) + CachedCount(cache, i + 1)
  }

  /** The disk scan of a refill takes nothing from a cached block. */
  predicate RefillSkipsCached(disk: seq<Block>, cache: seq<SectorBlockEntry>, size: nat) {
    BatchesClear(disk, cache, 0, size - CachedCount(cache, 0))
  }

  /** No cached block lies behind the head of a batch: a condition on the cached blocks' places alone. */
  predicate NoneBehindHeads(disk: seq<Block>, cache: seq<SectorBlockEntry>, b: nat)
    decreases |disk| - b
  {
    if b >= |disk| then true
    else if Cached(cache, b) then NoneBehindHeads(disk, cache, b + 1)
    else
      var n := BatchSize(disk, b);
      (forall c | b < c < b + n :: !Cached(cache, c)) && NoneBehindHeads(disk, cache, b + n)
  }

  /** With block `c` alone in the cache, from the head of a batch that does not lie behind it. */
  lemma {:induction false} OneCachedFrom(disk: seq<Block>, cache: seq<SectorBlockEntry>, c: nat, b: nat)
    requires (forall x: nat :: Cached(cache, x) <==> x == c) && c < |disk| && (b % 8 == 0 || c < b)
    ensures NoneBehindHeads(disk, cache, b) <==> c < b || c % 8 == 0
    decreases |disk| - b
  {
    if b == c {
      OneCachedFrom(disk, cache, c, b + 1);
    } else if b < |disk| {
      var n := BatchSize(disk, b);
      OneCachedFrom(disk, cache, c, b + n);
      if b < c < b + n { assert Cached(cache, c) && c % 8 != 0; }
    }
  }

  /** With one block in the cache a refill is sound, whatever the blocks hold, if that block heads a batch of eight. */
  lemma OneCachedHeads(disk: seq<Block>, cache: seq<SectorBlockEntry>, c: nat)
    requires (forall x: nat :: Cached(cache, x) <==> x == c) && c < |disk|
    ensures NoneBehindHeads(disk, cache, 0) <==> c % 8 == 0
  {
    OneCachedFrom(disk, cache, c, 0);
  }

  lemma {:induction false} UncachedBatchClear(disk: seq<Block>, cache: seq<SectorBlockEntry>, b: nat, n: nat, room: int)
    requires b + n <= |disk| && forall c :: b <= c < b + n ==> !Cached(cache, c)
    ensures BatchClear(disk, cache, b, n, room)
    decreases n
  {
    if n > 0 { UncachedBatchClear(disk, cache, b + 1, n - 1, room - FreeCount(disk[b])); }
  }

  /** Then a refill is sound whatever the blocks hold. */
  lemma {:induction false} HeadsSuffice(disk: seq<Block>, cache: seq<SectorBlockEntry>, b: nat, room: int)
    requires NoneBehindHeads(disk, cache, b)
    ensures BatchesClear(disk, cache, b, room)
    decreases |disk| - b
  {
    if b < |disk| {
      if Cached(cache, b) {
        HeadsSuffice(disk, cache, b + 1, room);
      } else {
        var n := BatchSize(disk, b);
        UncachedBatchClear(disk, cache, b, n, room);
        HeadsSuffice(disk, cache, b + n, room - BatchCount(disk, b, n));
      }
    }
  }

  lemma {:induction false} FreeOfCount(words: seq<Word>, base: nat)
    ensures |FreeOf(words, base)| == FreeCount(words)
  {
    if words != [] { FreeOfCount(words[..|words| - 1], base); }
  }

  lemma {:induction false} BatchFreeCount(disk: seq<Block>, b: nat, n: nat)
    requires b + n <= |disk|
    ensures |BatchFree(disk, b, n)| == BatchCount(disk, b, n)
    decreases n
  {
    if n > 0 {
      var f, rest := FreeOf(disk[b], 128 * b), BatchFree(disk, b + 1, n - 1);
      assert BatchFree(disk, b, n) == f + rest;
      FreeOfCount(disk[b], 128 * b);
      BatchFreeCount(disk, b + 1, n - 1);
    }
  }

  lemma {:induction false} CachedFreeCount(cache: seq<SectorBlockEntry>, i: nat)
    requires i <= |cache|
    ensures |CachedFree(cache, i)| == CachedCount(cache, i)
    decreases |cache| - i
  {
    if i < |cache| {
      FreeOfCount(cache[i].block, 128 * cache[i].blockId);
      CachedFreeCount(cache, i + 1);
    }
  }

  /** The ids for which the queue has room. */
  function Fitting(s: seq<nat>, room: int): seq<nat> {
    if room <= 0 then [] else Take(s, room)
  }

  ghost predicate Uncached(cache: seq<SectorBlockEntry>, s: seq<nat>) {
    forall k :: 0 <= k < |s| ==> !Cached(cache, s[k] / 128)
  }

  lemma FittingJoin(cache: seq<SectorBlockEntry>, s: seq<nat>, t: seq<nat>, room: int)
    ensures Fitting(s + t, room) == Fitting(s, room) + Fitting(t, room - |s|)
    ensures Uncached(cache, Fitting(s + t, room)) <==>
              Uncached(cache, Fitting(s, room)) && Uncached(cache, Fitting(t, room - |s|))
  {
    var u, v := Fitting(s, room), Fitting(t, room - |s|);
    assert Fitting(s + t, room) == u + v;
    if Uncached(cache, u + v) {
      forall k | 0 <= k < |u| ensures !Cached(cache, u[k] / 128) { assert (u + v)[k] == u[k]; }
      forall k | 0 <= k < |v| ensures !Cached(cache, v[k] / 128) { assert (u + v)[|u| + k] == v[k]; }
    }
  }

  lemma BlockClear(cache: seq<SectorBlockEntry>, block: Block, b: nat, room: int)
    ensures Uncached(cache, Fitting(FreeOf(block, 128 * b), room)) <==>
              (room > 0 && Cached(cache, b) ==> FreeCount(block) == 0)
  {
    var f := FreeOf(block, 128 * b);
    FreeOfCount(block, 128 * b);
    FreeOfOrder(block, 128 * b);
    var t := Fitting(f, room);
    forall k | 0 <= k < |t| ensures t[k] / 128 == b { assert t[k] == f[k]; }
    if room > 0 && FreeCount(block) > 0 { assert t[0] / 128 == b; }
  }

  lemma {:induction false} BatchClearExact(disk: seq<Block>, cache: seq<SectorBlockEntry>, b: nat, n: nat, room: int)
    requires b + n <= |disk|
    ensures Uncached(cache, Fitting(BatchFree(disk, b, n), room)) <==> BatchClear(disk, cache, b, n, room)
    decreases n
  {
    if n > 0 {
      var f := FreeOf(disk[b], 128 * b);
      FreeOfCount(disk[b], 128 * b);
      BlockClear(cache, disk[b], b, room);
      FittingJoin(cache, f, BatchFree(disk, b + 1, n - 1), room);
      BatchClearExact(disk, cache, b + 1, n - 1, room - |f|);
    }
  }

  lemma ScanOfBatch(disk: seq<Block>, cache: seq<SectorBlockEntry>, b: nat, room: int)
    requires b < |disk| && !Cached(cache, b)
    ensures var n := BatchSize(disk, b);
            var rest := room - BatchCount(disk, b, n);
            && (Uncached(cache, Fitting(DiskFree(disk, cache, b), room)) <==>
                  BatchClear(disk, cache, b, n, room) && Uncached(cache, Fitting(DiskFree(disk, cache, b + n), rest)))
            && (BatchesClear(disk, cache, b, room) <==>
                  BatchClear(disk, cache, b, n, room) && BatchesClear(disk, cache, b + n, rest))
  {
    var n := BatchSize(disk, b);
    var batch, behind := BatchFree(disk, b, n), DiskFree(disk, cache, b + n);
    BatchFreeCount(disk, b, n);
    BatchClearExact(disk, cache, b, n, room);
    assert DiskFree(disk, cache, b) == batch + behind;
    FittingJoin(cache, batch, behind, room);
  }

  /** What the disk scan queues names no cached block exactly when the batches are clear. */
  lemma {:induction false} BatchesClearExact(disk: seq<Block>, cache: seq<SectorBlockEntry>, b: nat, room: int)
    ensures Uncached(cache, Fitting(DiskFree(disk, cache, b), room)) <==> BatchesClear(disk, cache, b, room)
    decreases |disk| - b
  {
    if b < |disk| {
      if Cached(cache, b) {
        ScanOfCached(disk, cache, b, room);
        BatchesClearExact(disk, cache, b + 1, room);
      } else {
        var n := BatchSize(disk, b);
        var rest := room - BatchCount(disk, b, n);
        ScanOfBatch(disk, cache, b, room);
        BatchesClearExact(disk, cache, b + n, rest);
      }
    } else {
      assert Fitting(DiskFree(disk, cache, b), room) == [];
    }
  }

  lemma ScanOfCached(disk: seq<Block>, cache: seq<SectorBlockEntry>, b: nat, room: int)
    requires b < |disk| && Cached(cache, b)
    ensures DiskFree(disk, cache, b) == DiskFree(disk, cache, b + 1)
    ensures BatchesClear(disk, cache, b, room) == BatchesClear(disk, cache, b + 1, room)
  {
  }

  /** The same of the queue: behind the ids from the cache come none of a cached block. */
  lemma SkipsCachedExact(disk: seq<Block>, cache: seq<SectorBlockEntry>, size: nat)
    ensures RefillSkipsCached(disk, cache, size) <==>
              var r, n := Refilled(disk, cache, size), |CachedFree(cache, 0)|;
              forall k :: n <= k < |r| ==> !Cached(cache, r[k] / 128)
  {
    var cf, df := CachedFree(cache, 0), DiskFree(disk, cache, 0);
    var r := Refilled(disk, cache, size);
    CachedFreeCount(cache, 0);
    BatchesClearExact(disk, cache, 0, size - |cf|);
    var fit := Fitting(df, size - |cf|);
    assert |r| == if |cf| >= size then size else |cf| + |fit|;
    forall k | |cf| <= k < |r| ensures r[k] == fit[k - |cf|] {}
    if forall k :: |cf| <= k < |r| ==> !Cached(cache, r[k] / 128) {
      forall k | 0 <= k < |fit| ensures !Cached(cache, fit[k] / 128) { assert r[|cf| + k] == fit[k]; }
    }
  }

  lemma CachedIsFree(disk: seq<Block>, cache: seq<SectorBlockEntry>, table: seq<Block>, id: nat)
    requires Coherent(disk, cache, table)
    ensures id in CachedFree(cache, 0) <==> Cached(cache, id / 128) && Free(table, id)
  {
    CachedFreeHas(cache, 0, id);
    if Cached(cache, id / 128) && Free(table, id) {
      var k :| 0 <= k < |cache| && cache[k].blockId == id / 128;
      assert FreeInCache(cache, k, id);
    }
  }

  /**
   A refill queues distinct free sectors exactly when, as far as the queue has room, no cached block behind the head of
   a batch has a zero link on disk: the scan checks the cache for the first block of each batch of eight only.
   */
  lemma RefillSoundness(disk: seq<Block>, cache: seq<SectorBlockEntry>, table: seq<Block>, size: nat)
    requires Coherent(disk, cache, table)
    ensures PoolSound(table, Refilled(disk, cache, size)) <==> RefillSkipsCached(disk, cache, size)
  {
    var cf := CachedFree(cache, 0);
    var r := Refilled(disk, cache, size);
    SkipsCachedExact(disk, cache, size);
    if RefillSkipsCached(disk, cache, size) {
      SkippingRefillSound(disk, cache, table, size);
    } else {
      var k :| |cf| <= k < |r| && Cached(cache, r[k] / 128);
      if Free(table, r[k]) {
        CachedIsFree(disk, cache, table, r[k]);
        var i :| 0 <= i < |cf| && cf[i] == r[k];
        assert r[i] == r[k];
      }
    }
  }

  /** Where the ids of a refill come from: of cached blocks first. */
  ghost predicate FromCacheFirst(r: seq<nat>, cache: seq<SectorBlockEntry>, table: seq<Block>, n: nat) {
    forall k :: 0 <= k < |r| ==> Free(table, r[k]) && (Cached(cache, r[k] / 128) <==> k < n)
  }

  lemma RefillSources(disk: seq<Block>, cache: seq<SectorBlockEntry>, table: seq<Block>, size: nat)
    requires Coherent(disk, cache, table) && RefillSkipsCached(disk, cache, size)
    ensures FromCacheFirst(Refilled(disk, cache, size), cache, table, |CachedFree(cache, 0)|) == true
  {
    var cf, df := CachedFree(cache, 0), DiskFree(disk, cache, 0);
    var r := Refilled(disk, cache, size);
    SkipsCachedExact(disk, cache, size);
    forall k | 0 <= k < |r| ensures Free(table, r[k]) && (Cached(cache, r[k] / 128) <==> k < |cf|) {
      if k < |cf| {
        assert r[k] == cf[k];
        CachedIsFree(disk, cache, table, r[k]);
      } else {
        assert r[k] == df[k - |cf|];
        DiskFreeHas(disk, cache, 0, r[k]);
      }
    }
  }

  /** The ids of two ascending lists, of which only the first has those of cached blocks, are all different. */
  lemma SourcesDistinct(r: seq<nat>, cf: seq<nat>, df: seq<nat>, cache: seq<SectorBlockEntry>, table: seq<Block>,
                        i: nat, j: nat)
    requires Increasing(cf) && Increasing(df) && r <= cf + df && FromCacheFirst(r, cache, table, |cf|) && i < j < |r|
    ensures r[i] != r[j]
  {
    if j < |cf| {
      assert r[i] == cf[i] && r[j] == cf[j];
    } else if |cf| <= i {
      assert r[i] == df[i - |cf|] && r[j] == df[j - |cf|];
    }
  }

  lemma SkippingRefillSound(disk: seq<Block>, cache: seq<SectorBlockEntry>, table: seq<Block>, size: nat)
    requires Coherent(disk, cache, table) && RefillSkipsCached(disk, cache, size)
    ensures PoolSound(table, Refilled(disk, cache, size))
  {
    var cf, df := CachedFree(cache, 0), DiskFree(disk, cache, 0);
    var r := Refilled(disk, cache, size);
    RefillSources(disk, cache, table, size);
    CachedFreeOrder(cache, 0, |table|);
    DiskFreeOrder(disk, cache, 0);
    forall i, j | 0 <= i < j < |r| ensures r[i] != r[j] {
      SourcesDistinct(r, cf, df, cache, table, i, j);
    }
  }

  /** A queue with room left has all that is free; a sound refill leaves it empty only when nothing is. */
  lemma RefillComplete(disk: seq<Block>, cache: seq<SectorBlockEntry>, table: seq<Block>, size: nat)
    requires Coherent(disk, cache, table) && 0 < size
    ensures Refilled(disk, cache, size) == [] ==> forall id :: !Free(table, id)
    ensures (forall id :: !Free(table, id)) && RefillSkipsCached(disk, cache, size) ==>
              Refilled(disk, cache, size) == []
    ensures |Refilled(disk, cache, size)| <= size
    ensures |Refilled(disk, cache, size)| < size ==> forall id :: Free(table, id) ==> id in Refilled(disk, cache, size)
  {
    var r := Refilled(disk, cache, size);
    if |r| < size {
      forall id: nat | Free(table, id) ensures id in r {
        CachedIsFree(disk, cache, table, id);
        DiskFreeHas(disk, cache, 0, id);
      }
    }
    if r == [] {
      forall id: nat ensures !Free(table, id) {
        CachedIsFree(disk, cache, table, id);
        DiskFreeHas(disk, cache, 0, id);
      }
    } else if RefillSkipsCached(disk, cache, size) {
      RefillSoundness(disk, cache, table, size);
      assert Free(table, r[0]);
    }
  }

  lemma {:induction false} NoneCached(disk: seq<Block>, b: nat)
    ensures NoneBehindHeads(disk, [], b)
    decreases |disk| - b
  {
    if b < |disk| { NoneCached(disk, b + BatchSize(disk, b)); }
  }

  /** With nothing cached, as at mount time, a refill is sound. */
  lemma RefillAtMount(disk: seq<Block>, table: seq<Block>, size: nat)
    requires Coherent(disk, [], table)
    ensures PoolSound(table, Refilled(disk, [], size))
  {
    NoneCached(disk, 0);
    HeadsSuffice(disk, [], 0, size);
    RefillSoundness(disk, [], table, size);
  }

  // ---------------------------------------------------------------- the table as the volume keeps it

  lemma EvictFirst(disk: seq<Block>, cache: seq<SectorBlockEntry>, table: seq<Block>, n: nat)
    requires Coherent(disk, cache, table) && n <= |cache|
    requires forall i :: 0 <= i < n ==> disk[cache[i].blockId] == table[cache[i].blockId]
    ensures Coherent(disk, cache[n..], table)
  {
    var rest := cache[n..];
    forall i | n <= i < |cache| ensures Cached(rest, cache[i].blockId) {
      assert rest[i - n] == cache[i];
    }
  }

  lemma InsertLoaded(disk: seq<Block>, cache: seq<SectorBlockEntry>, table: seq<Block>, pos: nat, e: SectorBlockEntry)
    requires Coherent(disk, cache, table) && pos <= |cache| && !Cached(cache, e.blockId)
    requires e.blockId < |table| && e.block == disk[e.blockId]
    requires forall i :: 0 <= i < |cache| ==>
               if i < pos then cache[i].blockId < e.blockId else e.blockId < cache[i].blockId
    ensures var now := cache[..pos] + [e] + cache[pos..]; Coherent(disk, now, table) && Cached(now, e.blockId)
  {
    var now := cache[..pos] + [e] + cache[pos..];
    assert now[pos] == e;
    forall i | 0 <= i < |cache| ensures Cached(now, cache[i].blockId) {
      assert now[if i < pos then i else i + 1] == cache[i];
    }
  }

  lemma UpdateCached(cache: seq<SectorBlockEntry>, pos: nat, e: SectorBlockEntry, b: nat)
    requires pos < |cache| && e.blockId == cache[pos].blockId
    ensures Cached(cache[pos := e], b) <==> Cached(cache, b)
  {
    var now := cache[pos := e];
    assert forall i :: 0 <= i < |cache| ==> now[i].blockId == cache[i].blockId;
  }

  lemma ReadCached(disk: seq<Block>, cache: seq<SectorBlockEntry>, table: seq<Block>, pos: nat, id: nat)
    requires Coherent(disk, cache, table) && pos < |cache|
    ensures Coherent(disk, cache[pos := cache[pos].Read(id).0], table)
  {
    forall b: nat { UpdateCached(cache, pos, cache[pos].Read(id).0, b); }
  }

  lemma WriteCached(disk: seq<Block>, cache: seq<SectorBlockEntry>, table: seq<Block>, pos: nat, id: nat, value: Word)
    requires Coherent(disk, cache, table) && pos < |cache| && id < 128 * |table| && cache[pos].blockId == id / 128
    ensures Coherent(disk, cache[pos := cache[pos].Write(id, value)], Put(table, id, value))
  {
    var now := cache[pos := cache[pos].Write(id, value)];
    forall b | 0 <= b < |table| && !Cached(now, b) ensures disk[b] == Put(table, id, value)[b] {
      UpdateCached(cache, pos, cache[pos].Write(id, value), b);
      assert Cached(cache, id / 128);
    }
  }

  lemma WriteBack(disk: seq<Block>, cache: seq<SectorBlockEntry>, table: seq<Block>, i: nat)
    requires Coherent(disk, cache, table) && i < |cache|
    ensures Coherent(disk[cache[i].blockId := cache[i].block], cache, table)
  {
  }

  lemma {:induction false} FreeOfPrefix(words: seq<Word>, j: nat, base: nat)
    requires j <= |words|
    ensures FreeOf(words[..j], base) <= FreeOf(words, base)
  {
    if j < |words| {
      var n := |words| - 1;
      FreeOfPrefix(words[..n], j, base);
      assert words[..n][..j] == words[..j];
    } else {
      assert words[..j] == words;
    }
  }

  lemma TakeMore(s: seq<nat>, t: seq<nat>, n: nat)
    ensures |s| <= n ==> Take(s, n) + t == s + t
    ensures |s| > n ==> Take(s, n) == Take(s + t, n)
  {
  }

  /** Block `b` has come into the cache, if it was not there. */
  ghost predicate OneMoreCached(was: seq<SectorBlockEntry>, now: seq<SectorBlockEntry>, b: nat) {
    forall c: nat :: Cached(now, c) <==> Cached(was, c) || c == b
  }

  lemma OneInserted(cache: seq<SectorBlockEntry>, pos: nat, e: SectorBlockEntry)
    requires pos <= |cache|
    ensures OneMoreCached(cache, cache[..pos] + [e] + cache[pos..], e.blockId)
  {
    var now := cache[..pos] + [e] + cache[pos..];
    assert now[pos] == e;
    forall c: nat ensures Cached(now, c) <==> Cached(cache, c) || c == e.blockId {
      if Cached(cache, c) {
        var i :| 0 <= i < |cache| && cache[i].blockId == c;
        assert now[if i < pos then i else i + 1] == cache[i];
      }
    }
  }

  lemma SameCached(cache: seq<SectorBlockEntry>, pos: nat, e: SectorBlockEntry)
    requires pos < |cache| && e.blockId == cache[pos].blockId
    ensures forall c: nat :: Cached(cache[pos := e], c) <==> Cached(cache, c)
  {
    forall c: nat { UpdateCached(cache, pos, e, c); }
  }

  class FileSystem {
    var disk: seq<Block>
    var cache: seq<SectorBlockEntry>
    var freePool: seq<nat>
    var usedSectors: int
    const poolSize: nat
    /** The table that disk and cache stand for. */
    ghost var table: seq<Block>

    ghost predicate Valid() reads this {
      && Coherent(disk, cache, table)
      && |cache| <= MAX_SECTORS_IN_TABLE_CACHE
      && |freePool| <= poolSize && 0 < poolSize
      && forall i :: 0 <= i < |freePool| ==> freePool[i] < 128 * |table|
    }

    ghost predicate UsedExact() reads this {
      usedSectors == |UsedSet(table)|
    }

    /** At mount nothing is cached and nothing queued. */
    constructor (blocks: seq<Block>, size: nat, used: int)
      requires 0 < size
      ensures Valid() && disk == table == blocks && cache == [] && freePool == [] && poolSize == size
      ensures usedSectors == used
    {
      disk, table, cache, freePool, usedSectors, poolSize := blocks, blocks, [], [], used, size;
    }

    method FlushTableCache(flushSize: nat)
      requires Valid()
      modifies this`disk, this`cache
      ensures Valid()
      ensures cache == if flushSize < |old(cache)| then old(cache)[flushSize..] else old(cache)
      ensures flushSize >= |old(cache)| ==> disk == table
    {
      var n := if flushSize > |cache| then |cache| else flushSize;
      for i := 0 to n
        invariant Valid() && cache == old(cache)
        invariant forall k :: 0 <= k < i ==> disk[cache[k].blockId] == table[cache[k].blockId]
      {
        if cache[i].writeCount == 0 { continue; }
        WriteBack(disk, cache, table, i);
        disk := disk[cache[i].blockId := cache[i].block];
      }
      EvictFirst(disk, cache, table, n);
      if n == |cache| {
        assert cache[n..] == [];
        assert forall b :: 0 <= b < |table| ==> !Cached([], b);
      }
      if n < |cache| {
        cache := cache[n..];
      }
    }

    method AddToTableCache(id: nat)
      requires Valid() && id < 128 * |table|
      modifies this`disk, this`cache
      ensures Valid() && Cached(cache, id / 128)
      ensures |old(cache)| < MAX_SECTORS_IN_TABLE_CACHE ==>
                disk == old(disk) && OneMoreCached(old(cache), cache, id / 128)
      ensures |old(cache)| == MAX_SECTORS_IN_TABLE_CACHE ==> OneMoreCached(old(cache)[1..], cache, id / 128)
    {
      if |cache| == MAX_SECTORS_IN_TABLE_CACHE {
        FlushTableCache(1);
      }
      var found, pos := BinarySearch(cache, id / 128);
      if found { return; }
      var e := SectorBlockEntry(id / 128, disk[id / 128], 0, 0);
      InsertLoaded(disk, cache, table, pos, e);
      OneInserted(cache, pos, e);
      cache := cache[..pos] + [e] + cache[pos..];
    }

    method GetSectorEntryFromCache(id: nat) returns (r: Option<nat>)
      requires Valid()
      ensures r.None? <==> !Cached(cache, id / 128)
      ensures r.Some? ==> r.value < |cache| && cache[r.value].blockId == id / 128
    {
      if cache == [] { return None; }
      var found, pos := BinarySearch(cache, id / 128);
      return if found then Some(pos) else None;
    }

    /** The cache position of the block of `id`, loading it when needed. */
    method Locate(id: nat) returns (pos: nat)
      requires Valid() && id < 128 * |table|
      modifies this`disk, this`cache
      ensures Valid() && pos < |cache| && cache[pos].blockId == id / 128
      ensures |old(cache)| < MAX_SECTORS_IN_TABLE_CACHE ==>
                disk == old(disk) && OneMoreCached(old(cache), cache, id / 128)
    {
      var r := GetSectorEntryFromCache(id);
      if r.None? {
        AddToTableCache(id);
        r := GetSectorEntryFromCache(id);
      }
      return r.value;
    }

    /** The link stored last for `id`; None is the exception for an id above the table. */
    method GetSectorEntryValue(id: nat) returns (r: Option<nat>)
      requires Valid() && id != 128 * |table|
      modifies this`disk, this`cache
      ensures Valid()
      ensures r == if id < 128 * |table| then Some(At(table, id)) else None
    {
      if id > |disk| * 512 / 4 { return None; }
      var pos := Locate(id);
      var (e, value) := cache[pos].Read(id);
      ReadCached(disk, cache, table, pos, id);
      cache := cache[pos := e];
      return Some(value);
    }

    method SetSectorEntryValue(id: nat, value: Word) returns (ok: bool)
      requires Valid() && id != 128 * |table|
      modifies this`disk, this`cache, this`table, this`usedSectors
      ensures Valid() && ok == (id < 128 * |old(table)|)
      ensures table == if ok then Put(old(table), id, value) else old(table)
      ensures usedSectors == if ok then old(usedSectors) + UsedChange(value) else old(usedSectors)
      ensures ok && |old(cache)| < MAX_SECTORS_IN_TABLE_CACHE ==>
                disk == old(disk) && OneMoreCached(old(cache), cache, id / 128)
    {
      if id > |disk| * 512 / 4 { return false; }
      UpdateUsedSectors(value);
      var pos := Locate(id);
      WriteCached(disk, cache, table, pos, id, value);
      SameCached(cache, pos, cache[pos].Write(id, value));
      cache := cache[pos := cache[pos].Write(id, value)];
      table := Put(table, id, value);
      return true;
    }

    method UpdateUsedSectors(value: Word)
      modifies this`usedSectors
      ensures usedSectors == old(usedSectors) + UsedChange(value)
    {
      if value == EOC {
        usedSectors := usedSectors + 1;
      } else if value == 0 {
        usedSectors := usedSectors - 1;
      }
    }

    /** Queues the free ids of one block; stops at the first that does not fit. */
    method PushFree(block: Block, base: nat, ghost queued: seq<nat>) returns (stop: bool)
      requires Valid() && freePool == queued && base + 128 <= 128 * |table|
      modifies this`freePool
      ensures Valid() && freePool == Take(queued + FreeOf(block, base), poolSize)
      ensures stop <==> |queued + FreeOf(block, base)| > poolSize
    {
      for j := 0 to 128
        invariant Valid() && freePool == queued + FreeOf(block[..j], base)
      {
        assert block[..j + 1][..j] == block[..j];
        if Link(block[j]) == 0 {
          if |freePool| == poolSize {
            FreeOfPrefix(block, j + 1, base);
            return true;
          }
          freePool := freePool + [base + j];
        }
      }
      assert block[..128] == block;
      return false;
    }

    /** Queues the free ids of the `n` blocks of one read. */
    method PushBatch(b: nat, n: nat, ghost queued: seq<nat>) returns (stop: bool)
      requires Valid() && b + n <= |disk| && freePool == queued
      modifies this`freePool
      ensures Valid() && freePool == Take(queued + BatchFree(disk, b, n), poolSize)
      ensures stop <==> |queued + BatchFree(disk, b, n)| > poolSize
    {
      stop := false;
      ghost var done := queued;
      var k := 0;
      while k < n && !stop
        invariant Valid() && k <= n && freePool == Take(done, poolSize) && (stop <==> |done| > poolSize)
        invariant done + RestFree(disk, b, k, n) == queued + BatchFree(disk, b, n)
      {
        stop := PushFree(disk[b + k], 128 * (b + k), done);
        BatchFreeNext(disk, b, k, n, done);
        done := done + FreeOf(disk[b + k], 128 * (b + k));
        k := k + 1;
      }
      TakeMore(done, RestFree(disk, b, k, n), poolSize);
    }

    /** The first pass: the cached blocks. */
    method PushCached(ghost queued: seq<nat>) returns (stop: bool)
      requires Valid() && freePool == queued
      modifies this`freePool
      ensures Valid() && freePool == Take(queued + CachedFree(cache, 0), poolSize)
      ensures stop <==> |queued + CachedFree(cache, 0)| > poolSize
    {
      stop := false;
      ghost var done := queued;
      var i := 0;
      while i < |cache| && !stop
        invariant Valid() && i <= |cache| && freePool == Take(done, poolSize) && (stop <==> |done| > poolSize)
        invariant done + CachedFree(cache, i) == queued + CachedFree(cache, 0)
      {
        stop := PushFree(cache[i].block, 128 * cache[i].blockId, done);
        done := done + FreeOf(cache[i].block, 128 * cache[i].blockId);
        i := i + 1;
      }
      TakeMore(done, CachedFree(cache, i), poolSize);
    }

    /** One turn of the disk pass: a cached block is skipped, an uncached one heads a batch. */
    method PushHead(b: nat, ghost queued: seq<nat>) returns (stop: bool, next: nat, ghost done: seq<nat>)
      requires Valid() && freePool == queued && b < |disk|
      modifies this`freePool
      ensures Valid() && freePool == Take(done, poolSize) && (stop <==> |done| > poolSize)
      ensures b < next <= |disk| && done + DiskFree(disk, cache, next) == queued + DiskFree(disk, cache, b)
    {
      var found, _ := BinarySearch(cache, b);
      if found { return false, b + 1, queued; }
      var n := BatchSize(disk, b);
      stop := PushBatch(b, n, queued);
      next, done := b + n, queued + BatchFree(disk, b, n);
      assert DiskFree(disk, cache, b) == BatchFree(disk, b, n) + DiskFree(disk, cache, next);
    }

    /** The second pass: batches of up to eight blocks read from the disk. */
    method PushDisk(ghost queued: seq<nat>)
      requires Valid() && freePool == queued
      modifies this`freePool
      ensures Valid() && freePool == Take(queued + DiskFree(disk, cache, 0), poolSize)
    {
      var stop := false;
      ghost var done := queued;
      var b := 0;
      while b < |disk| && !stop
        invariant Valid() && b <= |disk| && freePool == Take(done, poolSize) && (stop <==> |done| > poolSize)
        invariant done + DiskFree(disk, cache, b) == queued + DiskFree(disk, cache, 0)
      {
        stop, b, done := PushHead(b, done);
      }
      TakeMore(done, DiskFree(disk, cache, b), poolSize);
    }

    /** Appends, up to the queue's size, first the free ids of cached blocks and then those of the disk scan. */
    method LoadFreeSectors()
      requires Valid()
      modifies this`freePool
      ensures Valid() && freePool == Take(old(freePool) + (CachedFree(cache, 0) + DiskFree(disk, cache, 0)), poolSize)
    {
      ghost var was, cf, df := freePool, CachedFree(cache, 0), DiskFree(disk, cache, 0);
      assert was + (cf + df) == (was + cf) + df;
      if |freePool| == poolSize { return; }
      var stop := PushCached(was);
      TakeMore(was + cf, df, poolSize);
      if stop { return; }
      PushDisk(was + cf);
    }

    /** Whether the refill that the next allocation would make, if any, leaves a sound queue. */
    predicate NextRefillSound() reads this {
      freePool == [] ==> RefillSkipsCached(disk, cache, poolSize)
    }

    /**
     Takes the first queued sector, refilling an empty queue, and marks it the end of a chain.  From a sound queue and a
     sound refill the sector was free, and the allocation fails only when no sector is.
     */
    method AllocateSector() returns (r: Option<nat>)
      requires Valid() && PoolSound(table, freePool)
      modifies this
      ensures Valid()
      ensures var queue := if old(freePool) == [] then Refilled(old(disk), old(cache), poolSize) else old(freePool);
              if queue == [] then r == None && freePool == [] else r == Some(queue[0]) && freePool == queue[1..]
      ensures r.None? ==> table == old(table) && usedSectors == old(usedSectors)
      ensures r.Some? ==> r.value < 128 * |old(table)| && table == Put(old(table), r.value, EOC)
      ensures r.Some? && |old(cache)| < MAX_SECTORS_IN_TABLE_CACHE ==>
                disk == old(disk) && OneMoreCached(old(cache), cache, r.value / 128)
      ensures old(NextRefillSound()) ==> PoolSound(table, freePool) && (old(UsedExact()) ==> UsedExact())
      ensures old(NextRefillSound()) ==> (r.None? <==> forall id :: !Free(old(table), id))
      ensures old(NextRefillSound()) && r.Some? ==> Free(old(table), r.value)
    {
      if freePool == [] {
        LoadFreeSectors();
        assert freePool == Refilled(disk, cache, poolSize);
        RefillSoundness(disk, cache, table, poolSize);
        RefillComplete(disk, cache, table, poolSize);
        if freePool == [] { return None; }
      }
      var id := freePool[0];
      AllocateKeepsPool(table, freePool);
      UsedCountExact(table, id, EOC);
      assert PoolSound(table, freePool) ==> Free(table, id);
      freePool := freePool[1..];
      var ok := SetSectorEntryValue(id, EOC);
      return Some(id);
    }

    /** Frees a sector; a full queue drops it, to be found by a later refill. */
    method DeAllocateSector(id: nat) returns (next: nat)
      requires Valid() && PoolSound(table, freePool) && id < 128 * |table| && !Free(table, id)
      modifies this
      ensures Valid() && PoolSound(table, freePool)
      ensures next == At(old(table), id) && table == Put(old(table), id, 0)
      ensures freePool == if |old(freePool)| < poolSize then old(freePool) + [id] else old(freePool)
      ensures old(UsedExact()) ==> UsedExact()
    {
      var r := GetSectorEntryValue(id);
      FreeKeepsPool(table, freePool, id);
      UsedCountExact(table, id, 0);
      var ok := SetSectorEntryValue(id, 0);
      if |freePool| < poolSize {
        freePool := freePool + [id];
      }
      return r.value;
    }

    /** Links a used sector to another value than the two marks the counter watches. */
    method LinkSector(id: nat, next: nat)
      requires Valid() && PoolSound(table, freePool) && id < 128 * |table| && !Free(table, id) && 0 < next < EOC
      modifies this
      ensures Valid() && PoolSound(table, freePool) && table == Put(old(table), id, next) && freePool == old(freePool)
      ensures old(UsedExact()) ==> UsedExact()
    {
      LinkKeepsPool(table, freePool, id, next);
      UsedCountExact(table, id, next);
      var ok := SetSectorEntryValue(id, next);
    }
  }

  lemma AllocateKeepsPool(table: seq<Block>, pool: seq<nat>)
    requires pool != [] && pool[0] < 128 * |table|
    ensures PoolSound(table, pool) ==> PoolSound(Put(table, pool[0], EOC), pool[1..])
  {
    if PoolSound(table, pool) {
      forall i | 1 <= i < |pool| ensures Free(Put(table, pool[0], EOC), pool[i]) {
        PutAt(table, pool[0], EOC, pool[i]);
      }
    }
  }

  lemma FreeKeepsPool(table: seq<Block>, pool: seq<nat>, id: nat)
    requires PoolSound(table, pool) && id < 128 * |table| && !Free(table, id)
    ensures PoolSound(Put(table, id, 0), pool + [id])
  {
    PutAt(table, id, 0, id);
    forall i | 0 <= i < |pool| ensures Free(Put(table, id, 0), pool[i]) {
      PutAt(table, id, 0, pool[i]);
    }
  }

  lemma LinkKeepsPool(table: seq<Block>, pool: seq<nat>, id: nat, next: Word)
    requires PoolSound(table, pool) && id < 128 * |table| && !Free(table, id)
    ensures PoolSound(Put(table, id, next), pool)
  {
    forall i | 0 <= i < |pool| ensures Free(Put(table, id, next), pool[i]) {
      PutAt(table, id, next, pool[i]);
    }
  }

  // ---------------------------------------------------------------- every run

  datatype Op = Look(id: nat) | Allocate | LinkTo(id: nat, next: nat) | Release(id: nat) | Flush(count: nat)

  /** What a step does to the flat table; `taken` is the sector an allocation answered, if any. */
  function Step(table: seq<Block>, op: Op, taken: Option<nat>): seq<Block> {
    match op
    case Look(_) => table
    case Flush(_) => table
    case Allocate => if taken.Some? && taken.value < 128 * |table| then Put(table, taken.value, EOC) else table
    case LinkTo(id, next) =>
      if id < 128 * |table| && At(table, id) != 0 && 0 < next < EOC then Put(table, id, next) else table
    case Release(id) =>
      if id < 128 * |table| && At(table, id) != 0 then Put(table, id, 0) else table
  }

  /** Link by link: an allocation sets the end mark, a link and a release change one used entry, and that is all. */
  lemma StepLinks(table: seq<Block>, op: Op, taken: Option<nat>, id: nat)
    requires id < 128 * |table|
    ensures |Step(table, op, taken)| == |table|
    ensures At(Step(table, op, taken), id) ==
              if op == Allocate && taken == Some(id) then EOC
              else if op.LinkTo? && op.id == id && At(table, id) != 0 && 0 < op.next < EOC then op.next
              else if op == Release(id) then 0
              else At(table, id)
  {
    match op
    case Allocate => if taken.Some? && taken.value < 128 * |table| { PutAt(table, taken.value, EOC, id); }
    case LinkTo(x, next) => if x < 128 * |table| && 0 < next < EOC { PutAt(table, x, next, id); }
    case Release(x) => if x < 128 * |table| { PutAt(table, x, 0, id); }
    case _ =>
  }

  ghost function FlatRun(table: seq<Block>, ops: seq<Op>, taken: seq<Option<nat>>): seq<Block>
    requires |ops| == |taken|
  {
    if ops == [] then table
    else
      var n := |ops| - 1;
      Step(FlatRun(table, ops[..n], taken[..n]), ops[n], taken[n])
  }

  /** What a step may answer: the flat table's own answer, and for an allocation a free sector or that there is none. */
  ghost predicate AnswerOk(flat: seq<Block>, op: Op, answer: Option<nat>) {
    match op
    case Look(id) => answer == if id < 128 * |flat| then Some(At(flat, id)) else None
    case Allocate => if answer.Some? then Free(flat, answer.value) else forall id :: !Free(flat, id)
    case _ => true
  }

  method Perform(fs: FileSystem, op: Op) returns (answer: Option<nat>)
    requires fs.Valid() && PoolSound(fs.table, fs.freePool) && fs.UsedExact()
    requires (op.Allocate? ==> fs.NextRefillSound()) && op != Look(128 * |fs.disk|)
    modifies fs
    ensures fs.Valid() && PoolSound(fs.table, fs.freePool) && fs.UsedExact()
    ensures fs.table == Step(old(fs.table), op, answer) && AnswerOk(old(fs.table), op, answer)
  {
    answer := None;
    match op
    case Look(id) =>
      answer := fs.GetSectorEntryValue(id);
    case Flush(count) =>
      fs.FlushTableCache(count);
    case Allocate =>
      answer := fs.AllocateSector();
    case LinkTo(id, next) =>
      if id < 128 * |fs.disk| && 0 < next < EOC { PerformLink(fs, id, next); }
    case Release(id) =>
      if id < 128 * |fs.disk| { PerformRelease(fs, id); }
  }

  method PerformLink(fs: FileSystem, id: nat, next: nat)
    requires fs.Valid() && PoolSound(fs.table, fs.freePool) && fs.UsedExact() && id < 128 * |fs.disk| && 0 < next < EOC
    modifies fs
    ensures fs.Valid() && PoolSound(fs.table, fs.freePool) && fs.UsedExact()
    ensures fs.table == Step(old(fs.table), LinkTo(id, next), None)
  {
    var was := fs.GetSectorEntryValue(id);
    if was.value != 0 { fs.LinkSector(id, next); }
  }

  method PerformRelease(fs: FileSystem, id: nat)
    requires fs.Valid() && PoolSound(fs.table, fs.freePool) && fs.UsedExact() && id < 128 * |fs.disk|
    modifies fs
    ensures fs.Valid() && PoolSound(fs.table, fs.freePool) && fs.UsedExact()
    ensures fs.table == Step(old(fs.table), Release(id), None)
  {
    var was := fs.GetSectorEntryValue(id);
    if was.value != 0 { var _ := fs.DeAllocateSector(id); }
  }

  /** The answers so far are those of the flat table. */
  ghost predicate FlatAnswers(was: seq<Block>, ops: seq<Op>, answers: seq<Option<nat>>, now: seq<Block>) {
    && |answers| <= |ops| && now == FlatRun(was, ops[..|answers|], answers)
    && forall i :: 0 <= i < |answers| ==> AnswerOk(FlatRun(was, ops[..i], answers[..i]), ops[i], answers[i])
  }

  lemma FlatAnswersOn(was: seq<Block>, ops: seq<Op>, answers: seq<Option<nat>>, table: seq<Block>, answer: Option<nat>,
                      now: seq<Block>)
    requires FlatAnswers(was, ops, answers, table) && |answers| < |ops|
    requires now == Step(table, ops[|answers|], answer) && AnswerOk(table, ops[|answers|], answer)
    ensures FlatAnswers(was, ops, answers + [answer], now) == true
  {
    var n, all := |answers|, answers + [answer];
    assert ops[..n + 1][..n] == ops[..n] && all[..n] == answers;
    forall i | 0 <= i < n ensures all[..i] == answers[..i] {}
  }

  /**
   Any run over used sectors.  Every answer and the final table are those of the flat table, the queue stays sound and
   the counter exact; the run stops before the first allocation whose refill would not be sound, and before a look at
   the id that the code admits although it is one above the last.
   */
  method Run(fs: FileSystem, ops: seq<Op>) returns (answers: seq<Option<nat>>)
    requires fs.Valid() && PoolSound(fs.table, fs.freePool) && fs.UsedExact()
    modifies fs
    ensures fs.Valid() && PoolSound(fs.table, fs.freePool) && fs.UsedExact()
    ensures |answers| <= |ops| && fs.table == FlatRun(old(fs.table), ops[..|answers|], answers)
    ensures |answers| < |ops| ==>
              (ops[|answers|].Allocate? && !fs.NextRefillSound()) || ops[|answers|] == Look(128 * |fs.table|)
    ensures forall i :: 0 <= i < |answers| ==>
              AnswerOk(FlatRun(old(fs.table), ops[..i], answers[..i]), ops[i], answers[i])
  {
    answers := [];
    while |answers| < |ops|
      invariant fs.Valid() && PoolSound(fs.table, fs.freePool) && fs.UsedExact()
      invariant FlatAnswers(old(fs.table), ops, answers, fs.table) == true
      decreases |ops| - |answers|
    {
      assert |answers| <= |ops|;
      var n := |answers|;
      if (ops[n].Allocate? && !fs.NextRefillSound()) || ops[n] == Look(128 * |fs.disk|) { return; }
      ghost var before := fs.table;
      var answer := Perform(fs, ops[n]);
      FlatAnswersOn(old(fs.table), ops, answers, before, answer, fs.table);
      answers := answers + [answer];
    }
  }

  // ---------------------------------------------------------------- a used sector handed out again

  /** A table of two blocks, the first all used, the second all free. */
  ghost predicate HalfFree(disk: seq<Block>) {
    && |disk| == 2
    && forall i :: 0 <= i < 128 ==> disk[0][i] == EOC && disk[1][i] == 0
  }

  lemma {:induction false} FreeOfUsed(words: seq<Word>, base: nat)
    requires forall i :: 0 <= i < |words| ==> Link(words[i]) != 0
    ensures FreeOf(words, base) == []
  {
    if words != [] { FreeOfUsed(words[..|words| - 1], base); }
  }

  function Ids(from: nat, to: nat): seq<nat>
    requires from <= to
  {
    seq(to - from, i requires 0 <= i < to - from => from + i)
  }

  lemma {:induction false} FreeOfFree(words: seq<Word>, base: nat)
    requires forall i :: 0 <= i < |words| ==> Link(words[i]) == 0
    ensures FreeOf(words, base) == Ids(base, base + |words|)
  {
    if words != [] { FreeOfFree(words[..|words| - 1], base); }
  }

  /** The scan of a drive whose second block only is free on disk, with at most that block cached. */
  lemma ScanOfTwo(disk: seq<Block>, cache: seq<SectorBlockEntry>)
    requires HalfFree(disk) && !Cached(cache, 0)
    ensures DiskFree(disk, cache, 0) == Ids(128, 256)
  {
    FreeOfUsed(disk[0], 0);
    FreeOfFree(disk[1], 128);
    assert BatchFree(disk, 1, 1) == FreeOf(disk[1], 128) + BatchFree(disk, 2, 0);
    assert BatchFree(disk, 0, 2) == FreeOf(disk[0], 0) + BatchFree(disk, 1, 1);
    assert DiskFree(disk, cache, 2) == [];
  }

  lemma OnlyOneCached(cache: seq<SectorBlockEntry>)
    requires Sorted(cache) && forall c: nat :: Cached(cache, c) ==> c == 1
    ensures |cache| <= 1 && forall i :: 0 <= i < |cache| ==> cache[i].blockId == 1
  {
    forall i | 0 <= i < |cache| ensures cache[i].blockId == 1 { assert Cached(cache, cache[i].blockId); }
    if cache != [] { assert cache[0].blockId == cache[|cache| - 1].blockId; }
  }

  ghost predicate IdsFrom(pool: seq<nat>, from: nat, to: nat) {
    from + |pool| == to && forall i :: 0 <= i < |pool| ==> pool[i] == from + i
  }

  /** From mount `k` sectors of the second block have been taken; the block is cached once there is one. */
  ghost predicate FilledTo(disk: seq<Block>, cache: seq<SectorBlockEntry>, table: seq<Block>, pool: seq<nat>, k: nat) {
    && HalfFree(disk) && |table| == 2 && k <= 128 && IdsFrom(pool, 128 + k, 256)
    && (forall c: nat :: Cached(cache, c) <==> k > 0 && c == 1)
    && (forall id :: 128 <= id < 128 + k ==> At(table, id) == EOC)
  }

  method AllocateNext(fs: FileSystem, k: nat)
    requires fs.Valid() && PoolSound(fs.table, fs.freePool) == true && k < 128
    requires FilledTo(fs.disk, fs.cache, fs.table, fs.freePool, k) == true
    modifies fs
    ensures fs.Valid() == true && PoolSound(fs.table, fs.freePool) == true
    ensures FilledTo(fs.disk, fs.cache, fs.table, fs.freePool, k + 1) == true
  {
    OnlyOneCached(fs.cache);
    ghost var was := fs.table;
    assert fs.freePool[0] == 128 + k && IdsFrom(fs.freePool[1..], 128 + k + 1, 256);
    var taken := fs.AllocateSector();
    forall id | 128 <= id < 128 + k + 1 ensures At(fs.table, id) == EOC { PutAt(was, 128 + k, EOC, id); }
  }

  /**
   From mount, with a table of two blocks of which the second is free, 128 allocations go well; the next answers the
   first of their sectors again, although it is in use.
   */
  method AllocateUsedSector(size: nat) returns (r: Option<nat>, ghost before: seq<Block>)
    requires 128 <= size
    ensures r == Some(128) && |before| == 2 && At(before, 128) == EOC
  {
    var fs := new FileSystem([seq(128, _ => EOC), seq(128, _ => 0)], size, 128);
    ScanOfTwo(fs.disk, []);
    RefillAtMount(fs.disk, fs.table, size);
    assert Refilled(fs.disk, [], size) == Ids(128, 256);
    fs.LoadFreeSectors();
    assert fs.freePool == Ids(128, 256);
    for k := 0 to 128
      invariant fs.Valid() == true && PoolSound(fs.table, fs.freePool) == true && fs.poolSize == size
      invariant FilledTo(fs.disk, fs.cache, fs.table, fs.freePool, k) == true
    {
      AllocateNext(fs, k);
    }
    before := fs.table;
    OnlyOneCached(fs.cache);
    assert fs.freePool == [];
    assert Cached(fs.cache, 1);
    AllQueuedAgain(fs.disk, fs.cache, fs.table, size);
    r := fs.AllocateSector();
  }

  lemma AllQueuedAgain(disk: seq<Block>, cache: seq<SectorBlockEntry>, table: seq<Block>, size: nat)
    requires Coherent(disk, cache, table) && HalfFree(disk) && 128 <= size
    requires |cache| == 1 && cache[0].blockId == 1 && !Cached(cache, 0)
    requires forall id :: 128 <= id < 256 ==> At(table, id) == EOC
    ensures Refilled(disk, cache, size) == Ids(128, 256)
  {
    forall i | 0 <= i < 128 ensures Link(cache[0].block[i]) != 0 { assert At(table, 128 + i) == EOC; }
    FreeOfUsed(cache[0].block, 128);
    assert CachedFree(cache, 0) == FreeOf(cache[0].block, 128) + CachedFree(cache, 1);
    ScanOfTwo(disk, cache);
  }
}
