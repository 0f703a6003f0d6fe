/**
 The blocks of the kernel heap and the trackers that head them.  Memory is the trackers that stand intact in it; storing
 one destroys those it overlaps, so that a tracker survives only because it is shown to lie apart.
 */
module HeapBlocks {
  import opened Arithmetic
  import opened Trackers

  function GetByteStuffForAlign(address: nat, align: nat): (r: nat)
    ensures align > 0 ==> r < align
  {
    if align == 0 then 0
    else
      var m := address % align;
      if m == 0 then 0 else align - m
  }

  lemma NextMultiple(q: int, align: int)
    ensures (q + 1) * align == q * align + align
  {
  }

  /** The stuffing reaches an aligned address, and nothing less does. */
  lemma StuffingAligns(address: nat, align: nat, s: nat)
    requires align > 0 && s <= GetByteStuffForAlign(address, align)
    ensures (address + s) % align == 0 <==> s == GetByteStuffForAlign(address, align)
  {
    var q, m := address / align, address % align;
    assert address == q * align + m;
    if m + s == align {
      NextMultiple(q, align);
      RemainderIs(q + 1, 0, align);
    } else {
      RemainderIs(q, m + s, align);
    }
  }

  // ---------------------------------------------------------------- blocks and trackers

  datatype Block = Free(size: nat) | Live(size: nat, stuff: nat, request: nat)

  /** A heap from `start` up to `end`: its blocks, the free ones as the list has them, and its trackers. */
  datatype Arena = Arena(blocks: map<nat, Block>, free: seq<nat>, mem: map<nat, Tracker>, start: nat, end: nat)

  /** Storing a tracker destroys those that share a byte with it. */
  function Store(mem: map<nat, Tracker>, a: nat, t: Tracker): map<nat, Tracker> {
    (map k | k in mem && (k + 20 <= a || a + 20 <= k) :: mem[k])[a := t]
  }

  /** The block at `a` ends where another starts or the heap ends. */
  ghost predicate Follows(blocks: map<nat, Block>, end: nat, a: nat) {
    a in blocks ==> a + blocks[a].size == end || a + blocks[a].size in blocks
  }

  /** Blocks lie in the heap, without overlap, each ending where another starts or the heap ends. */
  ghost predicate Tiles(blocks: map<nat, Block>, start: nat, end: nat) {
    && start in blocks
    && (forall a :: a in blocks ==> start <= a && blocks[a].size >= 20 && a + blocks[a].size <= end)
    && (forall a: nat :: Follows(blocks, end, a))
    && (forall a, b :: a in blocks && b in blocks && a < b ==> a + blocks[a].size <= b)
  }

  ghost predicate InBlock(blocks: map<nat, Block>, a: nat, x: nat) {
    a in blocks && a <= x < a + blocks[a].size
  }

  /** Every byte of the heap is in a block, and by `Tiles` in no other. */
  lemma {:induction false} ByteInBlock(blocks: map<nat, Block>, start: nat, end: nat, from: nat, x: nat)
    returns (a: nat)
    requires Tiles(blocks, start, end) && from in blocks && from <= x < end
    ensures InBlock(blocks, a, x)
    decreases end - from
  {
    if x < from + blocks[from].size { return from; }
    assert Follows(blocks, end, from);
    a := ByteInBlock(blocks, start, end, from + blocks[from].size, x);
  }

  function Next(free: seq<nat>, k: int): nat {
    if 0 <= k < |free| then free[k] else 0
  }

  /** The free list holds the free blocks, each once. */
  ghost predicate FreeListed(blocks: map<nat, Block>, free: seq<nat>) {
    && (forall k :: 0 <= k < |free| ==> free[k] in blocks && blocks[free[k]].Free?)
    && (forall i, j :: 0 <= i < j < |free| ==> free[i] != free[j])
    && (forall a :: a in blocks && blocks[a].Free? ==> a in free)
  }

  ghost predicate Holds(mem: map<nat, Tracker>, a: nat, t: Tracker) {
    a in mem && mem[a] == t
  }

  /** The tracker of the free block at place `k` of the list, leading to `next`. */
  ghost predicate FreeAt(s: Arena, k: nat, next: nat) {
    && k < |s.free| && s.free[k] in s.blocks
    && Holds(s.mem, s.free[k], FreeTracker(s.free[k], s.blocks[s.free[k]].size, next))
  }

  ghost predicate FreeLinked(s: Arena, k: nat) {
    FreeAt(s, k, Next(s.free, k + 1))
  }

  ghost predicate LiveAt(s: Arena, a: nat) {
    a in s.blocks && s.blocks[a].Live? ==>
      var b := s.blocks[a];
      20 + b.stuff + b.request <= b.size && Holds(s.mem, a + b.stuff, LiveTracker(a, b.size, b.stuff))
  }

  /** Every free and live tracker stands, sealed. */
  ghost predicate Tracked(s: Arena) {
    && (forall k: nat :: k < |s.free| ==> FreeLinked(s, k))
    && (forall a: nat :: LiveAt(s, a))
  }

  ghost predicate Sound(s: Arena) {
    0 < s.start && Tiles(s.blocks, s.start, s.end) && FreeListed(s.blocks, s.free) && Tracked(s)
  }

  /** `m` differs from `mem` only in trackers with a byte from `lo` up to `hi`. */
  ghost predicate OnlyInside(lo: nat, hi: nat, mem: map<nat, Tracker>, m: map<nat, Tracker>) {
    forall h :: h in mem && (h + 20 <= lo || hi <= h) ==> h in m && m[h] == mem[h]
  }

  /** `m` differs from the memory of `s` only inside the block at `a`. */
  ghost predicate OnlyIn(s: Arena, a: nat, m: map<nat, Tracker>) {
    a in s.blocks && OnlyInside(a, a + s.blocks[a].size, s.mem, m)
  }

  lemma OutsideBlock(s: Arena, a: nat, b: nat, h: nat)
    requires Tiles(s.blocks, s.start, s.end) && a in s.blocks && b in s.blocks && a != b
    requires b <= h && h + 20 <= b + s.blocks[b].size
    ensures h + 20 <= a || a + s.blocks[a].size <= h
  {
  }

  lemma FreeKept(s: Arena, a: nat, m: map<nat, Tracker>, j: nat)
    requires Sound(s) && OnlyIn(s, a, m) && j < |s.free| && s.free[j] != a
    ensures FreeLinked(s.(mem := m), j)
  {
    assert FreeLinked(s, j);
    OutsideBlock(s, a, s.free[j], s.free[j]);
  }

  lemma LiveKept(s: Arena, a: nat, m: map<nat, Tracker>, b: nat)
    requires Sound(s) && OnlyIn(s, a, m) && b != a
    ensures LiveAt(s.(mem := m), b)
  {
    assert LiveAt(s, b);
    if b in s.blocks && s.blocks[b].Live? { OutsideBlock(s, a, b, b + s.blocks[b].stuff); }
  }

  // ---------------------------------------------------------------- unlinking a free block

  /** The link of the tracker at `prev`, or for zero the list head and so no tracker, is made to lead elsewhere. */
  function Relink(mem: map<nat, Tracker>, prev: nat, next: nat): map<nat, Tracker> {
    if prev == 0 || prev !in mem then mem else mem[prev := Seal(mem[prev].(link := next))]
  }

  /** All trackers but that of the block at place `k`, with the link to it leading to `next`. */
  ghost predicate OtherLinked(s: Arena, k: nat, next: nat, j: nat)
    requires k < |s.free|
  {
    FreeAt(s, j, if j == k - 1 then next else Next(s.free, j + 1)) && s.free[j] != s.free[k]
  }

  ghost predicate OthersKept(s: Arena, k: nat, next: nat)
    requires k < |s.free|
  {
    && (forall j: nat :: j < |s.free| && j != k ==> OtherLinked(s, k, next, j))
    && (forall b: nat :: LiveAt(s, b))
  }

  lemma RelinkKeepsFree(s: Arena, k: nat, m: map<nat, Tracker>, next: nat, j: nat)
    requires Sound(s) && k < |s.free| && OnlyIn(s, s.free[k], m) && j < |s.free| && j != k
    ensures OtherLinked(s.(mem := Relink(m, Next(s.free, k - 1), next)), k, next, j)
  {
    FreeKept(s, s.free[k], m, j);
    if k > 0 {
      FreeKept(s, s.free[k], m, k - 1);
      assert j != k - 1 ==> s.free[j] != s.free[k - 1];
    }
  }

  lemma RelinkKeepsLive(s: Arena, k: nat, m: map<nat, Tracker>, next: nat, b: nat)
    requires Sound(s) && k < |s.free| && OnlyIn(s, s.free[k], m)
    ensures LiveAt(s.(mem := Relink(m, Next(s.free, k - 1), next)), b)
  {
    if b in s.blocks && s.blocks[b].Live? {
      LiveKept(s, s.free[k], m, b);
      if k > 0 { OutsideBlock(s, s.free[k - 1], b, b + s.blocks[b].stuff); }
    }
  }

  /** Redirecting the link to a block keeps every other tracker, and what has been stored in the block. */
  lemma RelinkKeepsOthers(s: Arena, k: nat, m: map<nat, Tracker>, next: nat)
    requires Sound(s) && k < |s.free| && OnlyIn(s, s.free[k], m)
    ensures OthersKept(s.(mem := Relink(m, Next(s.free, k - 1), next)), k, next)
    ensures forall h, t :: s.free[k] <= h < s.free[k] + s.blocks[s.free[k]].size && Holds(m, h, t) ==>
              Holds(Relink(m, Next(s.free, k - 1), next), h, t)
  {
    if k > 0 { OutsideBlock(s, s.free[k], s.free[k - 1], s.free[k - 1]); }
    var s' := s.(mem := Relink(m, Next(s.free, k - 1), next));
    forall j: nat | j < |s.free| && j != k ensures OtherLinked(s', k, next, j) {
      RelinkKeepsFree(s, k, m, next, j);
    }
    forall b: nat ensures LiveAt(s', b) {
      RelinkKeepsLive(s, k, m, next, b);
    }
  }

  // ---------------------------------------------------------------- the front of a free block becomes live

  function Carved(blocks: map<nat, Block>, a: nat, size: nat, stuff: nat, request: nat): map<nat, Block>
    requires a in blocks && size <= blocks[a].size
  {
    blocks[a := Live(size, stuff, request)][a + size := Free(blocks[a].size - size)]
  }

  /** `now` has the block at `a` cut in two behind its first `size` bytes. */
  ghost predicate CutAt(blocks: map<nat, Block>, a: nat, size: nat, now: map<nat, Block>) {
    && a in blocks && a in now && a + size in now && a + size !in blocks
    && now[a].size == size && now[a + size].size == blocks[a].size - size
    && (forall x :: x in now && x != a && x != a + size ==> x in blocks && now[x].size == blocks[x].size)
    && (forall x :: x in blocks ==> x in now)
  }

  lemma CutApart(blocks: map<nat, Block>, start: nat, end: nat, a: nat, size: nat, now: map<nat, Block>, x: nat,
                 y: nat)
    requires Tiles(blocks, start, end) && 20 <= size && CutAt(blocks, a, size, now)
    requires x in now && y in now && x < y
    ensures x + now[x].size <= y
  {
    var x0, y0 := if x == a + size then a else x, if y == a + size then a else y;
    assert x0 in blocks && y0 in blocks;
  }

  lemma CutTiles(blocks: map<nat, Block>, start: nat, end: nat, a: nat, size: nat, now: map<nat, Block>)
    requires Tiles(blocks, start, end) && CutAt(blocks, a, size, now) && 20 <= size && size + 20 <= blocks[a].size
    ensures Tiles(now, start, end)
  {
    forall x, y | x in now && y in now && x < y ensures x + now[x].size <= y {
      CutApart(blocks, start, end, a, size, now, x, y);
    }
    forall x: nat ensures Follows(now, end, x) {
      CutFollows(blocks, start, end, a, size, now, x);
    }
  }

  lemma CutFollows(blocks: map<nat, Block>, start: nat, end: nat, a: nat, size: nat, now: map<nat, Block>, x: nat)
    requires Tiles(blocks, start, end) && CutAt(blocks, a, size, now) && 20 <= size && size + 20 <= blocks[a].size
    ensures Follows(now, end, x) == true
    ensures x in now ==> start <= x && now[x].size >= 20 && x + now[x].size <= end
  {
    assert Follows(blocks, end, if x == a + size then a else x);
  }

  /** Splitting a block keeps the heap tiled. */
  lemma CarvedTiles(blocks: map<nat, Block>, start: nat, end: nat, a: nat, size: nat, stuff: nat, request: nat)
    requires Tiles(blocks, start, end) && a in blocks && 20 <= size && size + 20 <= blocks[a].size
    ensures a + size !in blocks
    ensures Tiles(Carved(blocks, a, size, stuff, request), start, end)
  {
    assert a + size !in blocks;
    CutTiles(blocks, start, end, a, size, Carved(blocks, a, size, stuff, request));
  }

  lemma CarvedListed(blocks: map<nat, Block>, free: seq<nat>, k: nat, size: nat, stuff: nat, request: nat)
    requires FreeListed(blocks, free) && k < |free| && size <= blocks[free[k]].size && size > 0
    requires free[k] + size !in blocks
    ensures FreeListed(Carved(blocks, free[k], size, stuff, request), free[k := free[k] + size])
  {
    var a := free[k];
    var now, list := Carved(blocks, a, size, stuff, request), free[k := a + size];
    forall x | x in now && now[x].Free? ensures x in list {
      if x == a + size {
        assert list[k] == x;
      } else {
        var j :| 0 <= j < |free| && free[j] == x;
        assert list[j] == x;
      }
    }
  }

  /** The heap with the front of the block at place `k` live and the rest of it free. */
  function Split(s: Arena, k: nat, n: nat, stuff: nat, m: map<nat, Tracker>): Arena
    requires k < |s.free| && s.free[k] in s.blocks && n + 20 + stuff <= s.blocks[s.free[k]].size
  {
    var a, size := s.free[k], n + 20 + stuff;
    Arena(Carved(s.blocks, a, size, stuff, n), s.free[k := a + size], m, s.start, s.end)
  }

  /** The trackers of both halves stand in `m`. */
  ghost predicate HalvesTracked(s: Arena, k: nat, n: nat, stuff: nat, m: map<nat, Tracker>)
    requires k < |s.free| && s.free[k] in s.blocks && n + 20 + stuff <= s.blocks[s.free[k]].size
  {
    var a, size := s.free[k], n + 20 + stuff;
    && Holds(m, a + stuff, LiveTracker(a, size, stuff))
    && Holds(m, a + size, FreeTracker(a + size, s.blocks[a].size - size, Next(s.free, k + 1)))
  }

  lemma SplitLinked(s: Arena, k: nat, n: nat, stuff: nat, m: map<nat, Tracker>, j: nat)
    requires k < |s.free| && s.free[k] in s.blocks && n + 40 + stuff <= s.blocks[s.free[k]].size && j < |s.free|
    requires s.free[k] + n + 20 + stuff !in s.blocks
    requires if j == k then HalvesTracked(s, k, n, stuff, m)
             else OtherLinked(s.(mem := m), k, s.free[k] + n + 20 + stuff, j)
    ensures FreeLinked(Split(s, k, n, stuff, m), j)
  {
  }

  lemma SplitTracked(s: Arena, k: nat, n: nat, stuff: nat, m: map<nat, Tracker>)
    requires k < |s.free| && s.free[k] in s.blocks && n + 40 + stuff <= s.blocks[s.free[k]].size
    requires s.free[k] + n + 20 + stuff !in s.blocks
    requires OthersKept(s.(mem := m), k, s.free[k] + n + 20 + stuff) && HalvesTracked(s, k, n, stuff, m)
    ensures Tracked(Split(s, k, n, stuff, m))
  {
    var s' := Split(s, k, n, stuff, m);
    forall j: nat | j < |s'.free| ensures FreeLinked(s', j) {
      if j != k { assert OtherLinked(s.(mem := m), k, s.free[k] + n + 20 + stuff, j); }
      SplitLinked(s, k, n, stuff, m, j);
    }
    forall b: nat ensures LiveAt(s', b) {
      assert LiveAt(s.(mem := m), b);
    }
  }

  /** Memory once the trackers of both halves are stored. */
  function SplitMemory(s: Arena, k: nat, n: nat, stuff: nat): map<nat, Tracker>
    requires k < |s.free| && s.free[k] in s.blocks && n + 20 + stuff <= s.blocks[s.free[k]].size
  {
    var a, size := s.free[k], n + 20 + stuff;
    Store(Store(s.mem, a + size, FreeTracker(a + size, s.blocks[a].size - size, Next(s.free, k + 1))),
      a + stuff, LiveTracker(a, size, stuff))
  }

  lemma SplitMemoryHolds(s: Arena, k: nat, n: nat, stuff: nat)
    requires Sound(s) && k < |s.free| && n + 40 + stuff <= s.blocks[s.free[k]].size
    ensures OnlyIn(s, s.free[k], SplitMemory(s, k, n, stuff))
    ensures HalvesTracked(s, k, n, stuff, SplitMemory(s, k, n, stuff))
  {
  }

  lemma SplitRelinked(s: Arena, k: nat, n: nat, stuff: nat, m: map<nat, Tracker>)
    requires Sound(s) && k < |s.free| && n + 40 + stuff <= s.blocks[s.free[k]].size
    requires m == Relink(SplitMemory(s, k, n, stuff), Next(s.free, k - 1), s.free[k] + n + 20 + stuff)
    ensures OthersKept(s.(mem := m), k, s.free[k] + n + 20 + stuff) && HalvesTracked(s, k, n, stuff, m)
  {
    var before := SplitMemory(s, k, n, stuff);
    SplitMemoryHolds(s, k, n, stuff);
    SplitRelinks(s, k, n, stuff, before, m);
  }

  lemma SplitRelinks(s: Arena, k: nat, n: nat, stuff: nat, before: map<nat, Tracker>, m: map<nat, Tracker>)
    requires Sound(s) && k < |s.free| && n + 40 + stuff <= s.blocks[s.free[k]].size
    requires OnlyIn(s, s.free[k], before) && HalvesTracked(s, k, n, stuff, before)
    requires m == Relink(before, Next(s.free, k - 1), s.free[k] + n + 20 + stuff)
    ensures OthersKept(s.(mem := m), k, s.free[k] + n + 20 + stuff) && HalvesTracked(s, k, n, stuff, m)
  {
    RelinkKeepsOthers(s, k, before, s.free[k] + n + 20 + stuff);
  }

  /** Splitting keeps tiling, free list and every tracker. */
  lemma SplitSound(s: Arena, k: nat, n: nat, stuff: nat, m: map<nat, Tracker>)
    requires Sound(s) && k < |s.free| && n + 40 + stuff <= s.blocks[s.free[k]].size
    requires m == Relink(SplitMemory(s, k, n, stuff), Next(s.free, k - 1), s.free[k] + n + 20 + stuff)
    ensures Sound(Split(s, k, n, stuff, m)) && HalvesTracked(s, k, n, stuff, m)
  {
    SplitRelinked(s, k, n, stuff, m);
    SplitParts(s, k, n, stuff, m);
  }

  lemma SplitTiles(s: Arena, k: nat, n: nat, stuff: nat, m: map<nat, Tracker>)
    requires Tiles(s.blocks, s.start, s.end) && k < |s.free| && s.free[k] in s.blocks
    requires n + 40 + stuff <= s.blocks[s.free[k]].size
    ensures Tiles(Split(s, k, n, stuff, m).blocks, s.start, s.end) == true && s.free[k] + n + 20 + stuff !in s.blocks
  {
    CarvedTiles(s.blocks, s.start, s.end, s.free[k], n + 20 + stuff, stuff, n);
  }

  lemma SplitListed(s: Arena, k: nat, n: nat, stuff: nat, m: map<nat, Tracker>)
    requires FreeListed(s.blocks, s.free) && k < |s.free| && n + 40 + stuff <= s.blocks[s.free[k]].size
    requires s.free[k] + n + 20 + stuff !in s.blocks
    ensures FreeListed(Split(s, k, n, stuff, m).blocks, Split(s, k, n, stuff, m).free)
  {
    CarvedListed(s.blocks, s.free, k, n + 20 + stuff, stuff, n);
  }

  lemma SplitParts(s: Arena, k: nat, n: nat, stuff: nat, m: map<nat, Tracker>)
    requires Sound(s) && k < |s.free| && n + 40 + stuff <= s.blocks[s.free[k]].size
    requires OthersKept(s.(mem := m), k, s.free[k] + n + 20 + stuff) && HalvesTracked(s, k, n, stuff, m)
    ensures Sound(Split(s, k, n, stuff, m))
  {
    SplitTiles(s, k, n, stuff, m);
    SplitListed(s, k, n, stuff, m);
    SplitTracked(s, k, n, stuff, m);
  }

  // ---------------------------------------------------------------- a free block becomes live whole

  function Taken(blocks: map<nat, Block>, a: nat, stuff: nat, request: nat): map<nat, Block>
    requires a in blocks
  {
    blocks[a := Live(blocks[a].size, stuff, request)]
  }

  lemma TakenTiles(blocks: map<nat, Block>, start: nat, end: nat, a: nat, stuff: nat, request: nat)
    requires Tiles(blocks, start, end) && a in blocks
    ensures Tiles(Taken(blocks, a, stuff, request), start, end)
  {
    var now := Taken(blocks, a, stuff, request);
    forall b: nat ensures Follows(now, end, b) {
      assert Follows(blocks, end, b);
    }
  }

  lemma TakenListed(blocks: map<nat, Block>, free: seq<nat>, k: nat, stuff: nat, request: nat)
    requires FreeListed(blocks, free) && k < |free|
    ensures FreeListed(Taken(blocks, free[k], stuff, request), free[..k] + free[k + 1..])
  {
    var now, list := Taken(blocks, free[k], stuff, request), free[..k] + free[k + 1..];
    forall x | x in now && now[x].Free? ensures x in list {
      var j :| 0 <= j < |free| && free[j] == x;
      assert j != k;
      assert list[if j < k then j else j - 1] == x;
    }
  }

  /** The heap with the block at place `k` live. */
  function Take(s: Arena, k: nat, n: nat, stuff: nat, m: map<nat, Tracker>): Arena
    requires k < |s.free| && s.free[k] in s.blocks
  {
    Arena(Taken(s.blocks, s.free[k], stuff, n), s.free[..k] + s.free[k + 1..], m, s.start, s.end)
  }

  lemma TakeLinked(s: Arena, k: nat, n: nat, stuff: nat, m: map<nat, Tracker>, j: nat)
    requires k < |s.free| && s.free[k] in s.blocks && j + 1 < |s.free|
    requires OtherLinked(s.(mem := m), k, Next(s.free, k + 1), if j < k then j else j + 1)
    ensures FreeLinked(Take(s, k, n, stuff, m), j)
  {
  }

  lemma TakeTracked(s: Arena, k: nat, n: nat, stuff: nat, m: map<nat, Tracker>)
    requires k < |s.free| && s.free[k] in s.blocks && n + 20 + stuff <= s.blocks[s.free[k]].size
    requires OthersKept(s.(mem := m), k, Next(s.free, k + 1))
    requires Holds(m, s.free[k] + stuff, LiveTracker(s.free[k], s.blocks[s.free[k]].size, stuff))
    ensures Tracked(Take(s, k, n, stuff, m))
  {
    var s' := Take(s, k, n, stuff, m);
    forall j: nat | j < |s'.free| ensures FreeLinked(s', j) {
      assert OtherLinked(s.(mem := m), k, Next(s.free, k + 1), if j < k then j else j + 1);
      TakeLinked(s, k, n, stuff, m, j);
    }
    forall b: nat ensures LiveAt(s', b) {
      assert LiveAt(s.(mem := m), b);
    }
  }

  /** Memory once the tracker of the live block is stored. */
  function TakeMemory(s: Arena, k: nat, stuff: nat): map<nat, Tracker>
    requires k < |s.free| && s.free[k] in s.blocks
  {
    Store(s.mem, s.free[k] + stuff, LiveTracker(s.free[k], s.blocks[s.free[k]].size, stuff))
  }

  lemma TakeRelinks(s: Arena, k: nat, stuff: nat, before: map<nat, Tracker>, m: map<nat, Tracker>)
    requires Sound(s) && k < |s.free| && 20 + stuff <= s.blocks[s.free[k]].size && OnlyIn(s, s.free[k], before)
    requires Holds(before, s.free[k] + stuff, LiveTracker(s.free[k], s.blocks[s.free[k]].size, stuff))
    requires m == Relink(before, Next(s.free, k - 1), Next(s.free, k + 1))
    ensures OthersKept(s.(mem := m), k, Next(s.free, k + 1))
    ensures Holds(m, s.free[k] + stuff, LiveTracker(s.free[k], s.blocks[s.free[k]].size, stuff))
  {
    RelinkKeepsOthers(s, k, before, Next(s.free, k + 1));
  }

  /** Taking a block whole keeps tiling, free list and every tracker. */
  lemma TakeSound(s: Arena, k: nat, n: nat, stuff: nat, m: map<nat, Tracker>)
    requires Sound(s) && k < |s.free| && n + 20 + stuff <= s.blocks[s.free[k]].size
    requires m == Relink(TakeMemory(s, k, stuff), Next(s.free, k - 1), Next(s.free, k + 1))
    ensures Sound(Take(s, k, n, stuff, m))
    ensures Holds(m, s.free[k] + stuff, LiveTracker(s.free[k], s.blocks[s.free[k]].size, stuff))
  {
    var before := TakeMemory(s, k, stuff);
    assert OnlyIn(s, s.free[k], before);
    TakeRelinks(s, k, stuff, before, m);
    TakenListed(s.blocks, s.free, k, stuff, n);
    TakeTracked(s, k, n, stuff, m);
    TakenTiles(s.blocks, s.start, s.end, s.free[k], stuff, n);
  }

  // ---------------------------------------------------------------- a live block becomes free

  lemma ReleasedTiles(blocks: map<nat, Block>, start: nat, end: nat, a: nat)
    requires Tiles(blocks, start, end) && a in blocks
    ensures Tiles(blocks[a := Free(blocks[a].size)], start, end)
  {
    var now := blocks[a := Free(blocks[a].size)];
    forall b: nat ensures Follows(now, end, b) {
      assert Follows(blocks, end, b);
    }
  }

  lemma ReleasedListed(blocks: map<nat, Block>, free: seq<nat>, a: nat)
    requires FreeListed(blocks, free) && a in blocks && blocks[a].Live?
    ensures FreeListed(blocks[a := Free(blocks[a].size)], [a] + free)
  {
    var now, list := blocks[a := Free(blocks[a].size)], [a] + free;
    forall x | x in now && now[x].Free? ensures x in list {
      if x != a { assert x in free; }
    }
  }

  /** The heap with the block at `a` free, at the front of the list. */
  function Release(s: Arena, a: nat): Arena
    requires a in s.blocks
  {
    Arena(s.blocks[a := Free(s.blocks[a].size)], [a] + s.free,
      Store(s.mem, a, FreeTracker(a, s.blocks[a].size, Next(s.free, 0))), s.start, s.end)
  }

  lemma ReleaseLinked(s: Arena, a: nat, j: nat)
    requires Sound(s) && a in s.blocks && s.blocks[a].Live? && j <= |s.free|
    ensures FreeLinked(Release(s, a), j)
  {
    if j > 0 {
      assert OnlyIn(s, a, Release(s, a).mem);
      FreeKept(s, a, Release(s, a).mem, j - 1);
    }
  }

  lemma ReleaseKeepsLive(s: Arena, a: nat, b: nat)
    requires Sound(s) && a in s.blocks && s.blocks[a].Live?
    ensures LiveAt(Release(s, a), b)
  {
    if a != b {
      assert OnlyIn(s, a, Release(s, a).mem);
      LiveKept(s, a, Release(s, a).mem, b);
    }
  }

  /** Freeing keeps tiling, free list and every tracker. */
  lemma ReleaseSound(s: Arena, a: nat)
    requires Sound(s) && a in s.blocks && s.blocks[a].Live?
    ensures Sound(Release(s, a))
  {
    ReleasedTiles(s.blocks, s.start, s.end, a);
    ReleasedListed(s.blocks, s.free, a);
    forall j: nat | j < |s.free| + 1 ensures FreeLinked(Release(s, a), j) {
      ReleaseLinked(s, a, j);
    }
    forall b: nat ensures LiveAt(Release(s, a), b) {
      ReleaseKeepsLive(s, a, b);
    }
  }

  /** Bytes of a live payload may change at will. */
  lemma PayloadTracked(s: Arena, m: map<nat, Tracker>, a: nat)
    requires Sound(s) && a in s.blocks && s.blocks[a].Live?
    requires OnlyInside(a + 20 + s.blocks[a].stuff, a + s.blocks[a].size, s.mem, m)
    ensures Sound(s.(mem := m))
  {
    forall j: nat | j < |s.free| ensures FreeLinked(s.(mem := m), j) {
      FreeKept(s, a, m, j);
    }
    forall b: nat ensures LiveAt(s.(mem := m), b) {
      assert LiveAt(s, b);
      if b != a { LiveKept(s, a, m, b); }
    }
  }
}
