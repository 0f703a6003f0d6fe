/** The allocator of the kernel heap: first fit over the free list, with alignment stuffing, splitting and checksums. */
module KernelHeap {
  import opened Arithmetic
  import opened Bits
  import opened Trackers
  import opened HeapBlocks

  const MEM_KERNEL_HEAP_SIZE := 0x300_0000

  datatype Outcome = Address(value: nat) | OutOfMemory | BadAlign | Corrupted
  datatype Freed = Success | BadDealloc | BadAddress | DoubleDelete

  function StuffingOf(a: nat, align: nat): nat {
    GetByteStuffForAlign(a + 20, align)
  }

  ghost predicate Fits(blocks: map<nat, Block>, a: nat, n: nat, align: nat) {
    a in blocks && n + 20 + StuffingOf(a, align) <= blocks[a].size
  }

  ghost predicate NoneBefore(s: Arena, k: nat, n: nat, align: nat) {
    forall j :: 0 <= j < k && j < |s.free| ==> !Fits(s.blocks, s.free[j], n, align)
  }

  /** The block at place `k` is the first of the list with room for the request. */
  ghost predicate FirstFit(s: Arena, k: nat, n: nat, align: nat) {
    k < |s.free| && Fits(s.blocks, s.free[k], n, align) && NoneBefore(s, k, n, align)
  }

  ghost predicate NoneFits(blocks: map<nat, Block>, n: nat, align: nat) {
    forall a :: a in blocks && blocks[a].Free? ==> !Fits(blocks, a, n, align)
  }

  /** What is left over stays free unless a tracker and a byte would not fit in it. */
  ghost predicate Placed(s: Arena, k: nat, n: nat, stuff: nat, s': Arena)
    requires k < |s.free| && s.free[k] in s.blocks && n + 20 + stuff <= s.blocks[s.free[k]].size
  {
    s' == if s.blocks[s.free[k]].size - (n + 20 + stuff) > 21 then Split(s, k, n, stuff, s'.mem)
          else Take(s, k, n, stuff, s'.mem)
  }

  /** The address is that of the first block with room, or there is none and nothing has changed. */
  ghost predicate Served(s: Arena, n: nat, align: nat, k: nat, r: Outcome, s': Arena) {
    match r
    case Address(ret) =>
      && FirstFit(s, k, n, align)
      && ret == s.free[k] + 20 + StuffingOf(s.free[k], align)
      && Placed(s, k, n, StuffingOf(s.free[k], align), s')
    case OutOfMemory => NoneFits(s.blocks, n, align) && s' == s
    case _ => false
  }

  lemma SearchedAll(s: Arena, k: nat, n: nat, align: nat)
    requires 0 < s.start && Tiles(s.blocks, s.start, s.end) && FreeListed(s.blocks, s.free)
    requires k <= |s.free| && Next(s.free, k) == 0 && NoneBefore(s, k, n, align)
    ensures NoneFits(s.blocks, n, align)
  {
    assert k == |s.free|;
    forall a | a in s.blocks && s.blocks[a].Free? ensures !Fits(s.blocks, a, n, align) {
      var j :| 0 <= j < |s.free| && s.free[j] == a;
    }
  }

  /** `addr` was handed out for the live block at `a`. */
  ghost predicate LiveReturn(blocks: map<nat, Block>, a: nat, addr: nat) {
    a in blocks && blocks[a].Live? && addr == a + 20 + blocks[a].stuff
  }

  /** The live blocks are those there were, untouched, and the one at `a`. */
  ghost predicate OneMoreLive(was: map<nat, Block>, now: map<nat, Block>, a: nat) {
    && (forall b :: b in was && was[b].Live? ==> b in now && now[b] == was[b])
    && (forall b :: b in now && now[b].Live? && b != a ==> b in was && was[b] == now[b])
  }

  lemma PlacedLive(s: Arena, k: nat, n: nat, stuff: nat, s': Arena)
    requires Tiles(s.blocks, s.start, s.end) && FreeListed(s.blocks, s.free)
    requires k < |s.free| && n + 20 + stuff <= s.blocks[s.free[k]].size && Placed(s, k, n, stuff, s')
    ensures OneMoreLive(s.blocks, s'.blocks, s.free[k])
    ensures LiveReturn(s'.blocks, s.free[k], s.free[k] + 20 + stuff) && s'.blocks[s.free[k]].request == n
  {
    assert s.free[k] + n + 20 + stuff !in s.blocks || s.blocks[s.free[k]].size == n + 20 + stuff;
  }

  /** The tracker of a live block stands right below the address that was handed out for it, and for it alone. */
  lemma LiveStands(s: Arena, a: nat, addr: nat)
    requires Sound(s) && LiveReturn(s.blocks, a, addr)
    ensures s.start + 20 <= addr <= s.end
    ensures Holds(s.mem, addr - 20, LiveTracker(a, s.blocks[a].size, s.blocks[a].stuff))
    ensures forall b :: LiveReturn(s.blocks, b, addr) ==> b == a
  {
    assert LiveAt(s, a);
    forall b | LiveReturn(s.blocks, b, addr) ensures b == a { assert LiveAt(s, b); }
  }

  /** The payloads of two live blocks do not meet, and no tracker of either lies in the other's. */
  lemma PayloadsApart(s: Arena, a: nat, b: nat, p: nat, q: nat)
    requires Sound(s) && LiveReturn(s.blocks, a, p) && LiveReturn(s.blocks, b, q) && a != b
    ensures p + s.blocks[a].request <= q - 20 || q + s.blocks[b].request <= p - 20
    ensures s.start + 20 <= p && p + s.blocks[a].request <= s.end
  {
    assert LiveAt(s, a) && LiveAt(s, b);
  }

  /** A live block has a byte from `lo` up to `hi`. */
  ghost predicate MeetsLive(blocks: map<nat, Block>, lo: nat, hi: nat) {
    exists a :: a in blocks && blocks[a].Live? && a < hi && lo < a + blocks[a].size
  }

  /** Memory after a write from `lo` up to `hi`: the trackers it touches are gone, any that it forges appear. */
  function Scribbled(mem: map<nat, Tracker>, lo: nat, hi: nat, forged: map<nat, Tracker>): map<nat, Tracker> {
    (map h | h in mem && (h + 20 <= lo || hi <= h) :: mem[h])
    + (map h | h in forged && lo < h + 20 && h < hi :: forged[h])
  }

  /** What is handed out is aligned, was in no live block, and leaves all live blocks as they were. */
  lemma ServedApart(s: Arena, n: nat, align: nat, k: nat, r: Outcome, s': Arena)
    requires Tiles(s.blocks, s.start, s.end) && FreeListed(s.blocks, s.free)
    requires Served(s, n, align, k, r, s') && r.Address?
    ensures !MeetsLive(s.blocks, r.value - 20, r.value + n) && s.start <= r.value - 20 < s.end
    ensures OneMoreLive(s.blocks, s'.blocks, s.free[k])
    ensures LiveReturn(s'.blocks, s.free[k], r.value) && s'.blocks[s.free[k]].request == n
    ensures align > 0 ==> r.value % align == 0
  {
    if align > 0 { StuffingAligns(s.free[k] + 20, align, StuffingOf(s.free[k], align)); }
    PlacedLive(s, k, n, StuffingOf(s.free[k], align), s');
  }

  /** With no free block left, whatever is handed out belongs to a live block already. */
  lemma ExhaustedMeets(blocks: map<nat, Block>, start: nat, end: nat, x: nat, hi: nat)
    requires Tiles(blocks, start, end) && FreeListed(blocks, []) && start <= x < end && x < hi
    ensures MeetsLive(blocks, x, hi)
  {
    var a := ByteInBlock(blocks, start, end, start, x);
    assert blocks[a].Live?;
  }

  /** The block at `a` has `n` bytes at the aligned address `p`, behind a tracker. */
  ghost predicate RoomAt(blocks: map<nat, Block>, a: nat, n: nat, align: nat, p: nat) {
    a in blocks && a + 20 <= p && p + n <= a + blocks[a].size && (align != 0 ==> p % align == 0)
  }

  lemma LowestRoom(blocks: map<nat, Block>, a: nat, n: nat, align: nat, p: nat)
    requires RoomAt(blocks, a, n, align, p)
    ensures Fits(blocks, a, n, align) && a + 20 + StuffingOf(a, align) <= p
  {
    if align != 0 && p - (a + 20) < StuffingOf(a, align) { StuffingAligns(a + 20, align, p - (a + 20)); }
  }

  lemma RoomFound(blocks: map<nat, Block>, a: nat, n: nat, align: nat)
    requires Fits(blocks, a, n, align)
    ensures RoomAt(blocks, a, n, align, a + 20 + StuffingOf(a, align))
  {
    if align != 0 { StuffingAligns(a + 20, align, StuffingOf(a, align)); }
  }

  /**
   A request fails exactly when no free block has room at an aligned address.  Else it gets the lowest such address of
   the first block on the list that has any.
   */
  lemma ServedExact(s: Arena, n: nat, align: nat, k: nat, r: Outcome, s': Arena)
    requires Served(s, n, align, k, r, s') && FreeListed(s.blocks, s.free)
    ensures r.Address? || r.OutOfMemory?
    ensures r.OutOfMemory? <==>
              forall a, p :: a in s.blocks && s.blocks[a].Free? ==> !RoomAt(s.blocks, a, n, align, p)
    ensures r.Address? ==> k < |s.free| && RoomAt(s.blocks, s.free[k], n, align, r.value)
    ensures r.Address? ==> forall p :: RoomAt(s.blocks, s.free[k], n, align, p) ==> r.value <= p
    ensures r.Address? ==> forall j, p :: 0 <= j < k ==> !RoomAt(s.blocks, s.free[j], n, align, p)
  {
    forall a: nat, p: nat | RoomAt(s.blocks, a, n, align, p)
      ensures Fits(s.blocks, a, n, align) && a + 20 + StuffingOf(a, align) <= p
    {
      LowestRoom(s.blocks, a, n, align, p);
    }
    if r.Address? { RoomFound(s.blocks, s.free[k], n, align); }
  }

  /**
   Of the chosen block `over` bytes are not asked for: more than a tracker and one byte stay free in its place on the
   list, fewer go with the block.
   */
  lemma RestKept(s: Arena, n: nat, align: nat, k: nat, r: Outcome, s': Arena)
    requires Served(s, n, align, k, r, s') && r.Address? && Tiles(s.blocks, s.start, s.end)
    ensures k < |s.free| && s.free[k] in s.blocks && s.free[k] in s'.blocks
    ensures var a, end := s.free[k], r.value + n;
            var over := a + s.blocks[a].size - end;
            if over > 21 then
              && a + s'.blocks[a].size == end && end in s'.blocks && s'.blocks[end] == Free(over)
              && s'.free == s.free[..k] + [end] + s.free[k + 1..]
            else
              s'.blocks[a].size == s.blocks[a].size && s'.free == s.free[..k] + s.free[k + 1..]
  {
    assert s.free[k := r.value + n] == s.free[..k] + [r.value + n] + s.free[k + 1..];
  }

  /** What has just been freed serves the next request that it has room for. */
  lemma FreedServesNext(s: Arena, a: nat, n: nat, align: nat, p: nat, k: nat, r: Outcome, s': Arena)
    requires a in s.blocks && RoomAt(Release(s, a).blocks, a, n, align, p)
    requires Served(Release(s, a), n, align, k, r, s')
    ensures r.Address? && a + 20 <= r.value <= p
  {
    LowestRoom(Release(s, a).blocks, a, n, align, p);
    assert Release(s, a).free[0] == a && Release(s, a).blocks[a].Free?;
  }

  // ---------------------------------------------------------------- what the words below an address decide

  function Standing(mem: map<nat, Tracker>, at: nat, garbage: Tracker): Tracker {
    if at in mem then mem[at] else garbage
  }

  function Verdict(t: Tracker): Freed {
    if !Intact(t) then BadAddress else if t.ret == 0 then DoubleDelete else Success
  }

  /** The block the words below `addr` name. */
  function BlockOf(addr: nat, t: Tracker): nat
    requires addr >= 20
  {
    (addr - 20 - t.link) % 0x1_0000_0000
  }

  /** The words below a live address are its tracker, and pass. */
  lemma LiveVerdict(s: Arena, a: nat, addr: nat, garbage: Tracker)
    requires Sound(s) && LiveReturn(s.blocks, a, addr) && addr < 0x1_0000_0000
    ensures s.start + 20 <= addr
    ensures var t := Standing(s.mem, addr - 20, garbage);
            t == LiveTracker(a, s.blocks[a].size, s.blocks[a].stuff) && Verdict(t) == Success && BlockOf(addr, t) == a
    ensures forall b :: LiveReturn(s.blocks, b, addr) ==> b == a
  {
    LiveStands(s, a, addr);
  }

  /** So it is the block that is freed, and no other. */
  lemma LiveReleased(s: Arena, a: nat, addr: nat, garbage: Tracker)
    requires Ready(s) && s.blocks != map[] && LiveReturn(s.blocks, a, addr) && addr < 0x1_0000_0000
    ensures s.start + 20 <= addr && Ready(Release(s, a)) == true
    ensures var t := Standing(s.mem, addr - 20, garbage);
            && Verdict(t) == Success && BlockOf(addr, t) == a
            && Release(s, a).mem == Store(s.mem, a, FreeTracker(a, t.size, Next(s.free, 0)))
    ensures forall b :: LiveReturn(s.blocks, b, addr) ==> b == a
  {
    LiveVerdict(s, a, addr, garbage);
    ReleaseSound(s, a);
  }

  /**
   Whether the words below the address of a block at `a`, freed with the list then at `next`, still pass the check:
   the tracker of the free block lies `stuff` bytes lower and has overwritten all but the last `stuff` bytes.
   */
  ghost predicate PassesAgain(a: nat, size: nat, next: nat, stuff: nat)
    requires stuff <= 20
  {
    if stuff == 0 || stuff == 20 then true
    else if stuff < 4 then LowBytesZero(a, stuff)
    else if stuff == 4 then a == 4
    else if stuff == 8 || stuff == 12 then size == a + 20 + stuff
    else if stuff == 16 then a == next
    else if stuff > 16 then HighIsLow(next, a, stuff - 16)
    else OddPasses(a, a + 20 + stuff, size, next, stuff / 4, stuff % 4)
  }

  /** Less than a tracker's worth of stuffing: the exact condition, whole words and odd bytes alike. */
  lemma PassesAgainExact(a: nat, size: nat, next: nat, stuff: nat)
    requires Word(a + 20 + stuff) && Word(size) && Word(next) && 1 <= stuff <= 19
    ensures Intact(ReadAfterFree(a, size, next, stuff)) <==> PassesAgain(a, size, next, stuff)
    ensures stuff == 8 ==> ReadAfterFree(a, size, next, stuff).ret == FreeTracker(a, size, next).check
    ensures stuff == 12 ==> ReadAfterFree(a, size, next, stuff).ret == next
  {
    if stuff < 4 {
      FreedByBytes(a, size, next, stuff);
    } else if stuff > 16 {
      FreedByTail(a, size, next, stuff);
    } else if stuff % 4 == 0 {
      PassesAgainByWords(a, size, next, stuff);
    } else {
      FreedOdd(a, a + 20 + stuff, size, next, stuff / 4, stuff % 4, stuff);
    }
  }

  lemma PassesAgainByWords(a: nat, size: nat, next: nat, stuff: nat)
    requires Word(a + 20 + stuff) && Word(size) && Word(next) && stuff in [4, 8, 12, 16]
    ensures Intact(ReadAfterFree(a, size, next, stuff)) <==> PassesAgain(a, size, next, stuff)
    ensures stuff == 8 ==> ReadAfterFree(a, size, next, stuff).ret == FreeTracker(a, size, next).check
    ensures stuff == 12 ==> ReadAfterFree(a, size, next, stuff).ret == next
  {
    if stuff == 4 {
      FreedByOneWord(a, size, next);
    } else if stuff == 8 {
      FreedByTwoWords(a, size, next);
      CheckOfFree(a, size, next);
    } else if stuff == 12 {
      FreedByThreeWords(a, size, next);
    } else {
      FreedByFourWords(a, size, next);
    }
  }

  /** Stuffing of up to four bytes, asked for by an alignment, leaves nothing that passes. */
  lemma AlignedCaught(a: nat, size: nat, next: nat, align: nat)
    requires a > 4 && IsPowerOfTwo(align) && 1 <= StuffingOf(a, align) <= 4
    ensures !PassesAgain(a, size, next, StuffingOf(a, align))
  {
    var s := StuffingOf(a, align);
    StuffingAligns(a + 20, align, s);
    EvenAligned(a + 20 + s, align);
    if s < 4 { LowBytesSet(a, s); }
  }

  lemma LowBytesSet(a: nat, s: nat)
    requires 1 <= s <= 3 && (a + s) % 2 == 0 && (s > 1 ==> (a + s) % 4 == 0)
    ensures !LowBytesZero(a, s)
  {
    assert WordBytes(a)[0] != 0;
  }

  lemma FactorDivides(x: nat, p: nat, c: nat, g: nat)
    requires 0 < p == c * g && 0 < c && x % p == 0
    ensures x % c == 0
  {
    var q := x / p;
    assert q * p == q * g * c by { assert q * (c * g) == q * g * c; }
    RemainderIs(q * g, 0, c);
  }

  lemma EvenAligned(x: nat, align: nat)
    requires IsPowerOfTwo(align) && align > 1 && x % align == 0
    ensures x % 2 == 0 && (align > 2 ==> x % 4 == 0)
    ensures (x - 20) % 2 == 0 && (align > 2 ==> (x - 20) % 4 == 0)
  {
    PowerOfTwoExact(align);
    var k: nat :| align == Power(k);
    PowerDivides(x, k, align);
    PowerParity(k);
    if k > 0 { PowerParity(k - 1); }
    Even(x - 20);
  }

  lemma Even(x: int)
    ensures x % 2 == (x + 20) % 2 && x % 4 == (x + 20) % 4
  {
  }

  lemma PowerDivides(x: nat, k: nat, p: nat)
    requires p == Power(k) && p > 0 && x % p == 0
    ensures k > 0 ==> x % 2 == 0
    ensures k > 1 ==> x % 4 == 0
  {
    PowerParity(k);
    if k > 0 { FactorDivides(x, p, 2, Power(k - 1)); }
    if k > 1 {
      PowerParity(k - 1);
      FactorDivides(x, p, 4, Power(k - 2));
    }
  }

  // ---------------------------------------------------------------- the allocator

  /** The heap an allocation searches: one with an empty list is taken for unused, whatever it holds. */
  function Searched(s: Arena): Arena {
    if s.free != [] then s
    else s.(blocks := map[s.start := Free(MEM_KERNEL_HEAP_SIZE)], free := [s.start],
            mem := Store(s.mem, s.start, FreeTracker(s.start, MEM_KERNEL_HEAP_SIZE, 0)))
  }

  /** The stuffing is what some alignment asked for. */
  ghost predicate StuffedFor(a: nat, stuff: nat) {
    exists align :: IsPowerOfTwo(align) && stuff == StuffingOf(a, align)
  }

  /** With nothing stuffed, the free tracker stands where the old one stood. */
  lemma FreeTrackerRead(a: nat, size: nat, next: nat, stuff: nat)
    requires Word(a + 20) && Word(size) && Word(next) && stuff == 0
    ensures ReadAfterFree(a, size, next, stuff) == FreeTracker(a, size, next) && Intact(FreeTracker(a, size, next))
  {
    BothFit(a, size, next, stuff);
    OverlaidWhole(FreeTracker(a, size, next), LiveTracker(a, size, stuff), stuff);
    ReadBack(FreeTracker(a, size, next));
  }

  lemma StuffedCaught(a: nat, size: nat, next: nat, stuff: nat)
    requires a > 4 && a != next && 1 <= stuff && (stuff <= 4 || stuff == 16) && StuffedFor(a, stuff)
    ensures !PassesAgain(a, size, next, stuff)
  {
    if stuff <= 4 {
      var align :| IsPowerOfTwo(align) && stuff == StuffingOf(a, align);
      AlignedCaught(a, size, next, align);
    }
  }

  /** What the check makes of the words below the address of a block once it has been freed. */
  ghost predicate SecondSeen(a: nat, size: nat, next: nat, stuff: nat, t: Tracker) {
    && stuff < 20 && (Intact(t) <==> PassesAgain(a, size, next, stuff))
    && (stuff == 0 ==> t == FreeTracker(a, size, next))
    && (stuff in [1, 2, 3, 4, 16] && StuffedFor(a, stuff) ==> !Intact(t))
  }

  lemma SecondVerdict(s: Arena, a: nat)
    requires Ready(s) && a in s.blocks && s.blocks[a].Live? && s.blocks[a].stuff < 20
    ensures var b, next := s.blocks[a], Next(s.free, 0);
            SecondSeen(a, b.size, next, b.stuff, ReadAfterFree(a, b.size, next, b.stuff))
  {
    var b, next := s.blocks[a], Next(s.free, 0);
    assert LiveAt(s, a);
    assert s.free != [] ==> next != a && next <= s.end;
    SecondRead(a, b.size, next, b.stuff);
  }

  lemma SecondRead(a: nat, size: nat, next: nat, stuff: nat)
    requires a > 4 && a != next && stuff < 20 && Word(a + 20 + stuff) && Word(size) && Word(next)
    ensures SecondSeen(a, size, next, stuff, ReadAfterFree(a, size, next, stuff))
  {
    if stuff == 0 {
      FreeTrackerRead(a, size, next, stuff);
      return;
    }
    PassesAgainExact(a, size, next, stuff);
    if (stuff <= 4 || stuff == 16) && StuffedFor(a, stuff) { StuffedCaught(a, size, next, stuff); }
  }

  /** Never used yet, or tiled and tracked. */
  ghost predicate Ready(s: Arena) {
    && 20 <= s.start && s.end == s.start + MEM_KERNEL_HEAP_SIZE < 0x1_0000_0000
    && if s.blocks == map[] then s.free == [] else Sound(s)
  }

  lemma SearchedSound(s: Arena)
    requires Ready(s)
    ensures Sound(Searched(s)) && s.start in Searched(s).blocks
  {
    if s.free == [] { assert FreeLinked(Searched(s), 0); }
  }

  /** An address is aligned, and lies in a live block exactly when the list had run empty. */
  lemma HandedOut(s: Arena, n: nat, align: nat, k: nat, r: Outcome, s': Arena)
    requires Ready(s) && Served(Searched(s), n, align, k, r, s') && r.Address?
    ensures align != 0 ==> r.value % align == 0
    ensures MeetsLive(s.blocks, r.value - 20, r.value + n) <==> s.blocks != map[] && s.free == []
  {
    SearchedSound(s);
    ServedApart(Searched(s), n, align, k, r, s');
    if s.blocks != map[] && s.free == [] {
      ExhaustedMeets(s.blocks, s.start, s.end, r.value - 20, r.value + n);
    }
  }

  class Heap {
    const start: nat
    const end: nat
    /** The first free tracker, zero for none. */
    var head: nat
    var mem: map<nat, Tracker>
    ghost var blocks: map<nat, Block>
    ghost var free: seq<nat>

    constructor (heapStart: nat, memory: map<nat, Tracker>)
      requires 20 <= heapStart && heapStart + MEM_KERNEL_HEAP_SIZE < 0x1_0000_0000
      ensures Valid() && blocks == map[] && start == heapStart && mem == memory
    {
      start, end, head, mem := heapStart, heapStart + MEM_KERNEL_HEAP_SIZE, 0, memory;
      blocks, free := map[], [];
    }

    ghost function Now(): Arena reads this {
      Arena(blocks, free, mem, start, end)
    }

    ghost predicate Valid() reads this {
      Ready(Now()) && head == Next(free, 0)
    }

    /** No free block is left: the list head looks as it did before the first use. */
    ghost predicate Exhausted() reads this {
      blocks != map[] && free == []
    }

    /** The whole heap as one free block, whatever it held before. */
    method Initialize()
      requires Valid() && head == 0
      modifies this
      ensures Valid() && blocks != map[] && Now() == Searched(old(Now()))
    {
      SearchedSound(Now());
      mem := Store(mem, start, FreeTracker(start, MEM_KERNEL_HEAP_SIZE, 0));
      head := start;
      blocks, free := map[start := Free(MEM_KERNEL_HEAP_SIZE)], [start];
    }

    /** The front of the block at `aut` becomes live; `prev` leads to it, or the list head does. */
    method Place(aut: nat, prev: nat, n: nat, stuff: nat, ghost k: nat) returns (ret: nat)
      requires Valid() && blocks != map[] && k < |free| && aut == free[k] && prev == Next(free, k - 1)
      requires n + 20 + stuff <= blocks[aut].size
      modifies this
      ensures Valid() && blocks != map[] && ret == aut + 20 + stuff
      ensures Placed(old(Now()), k, n, stuff, Now())
    {
      ret := aut + 20 + stuff;
      ghost var s := Now();
      assert FreeLinked(s, k);
      ghost var s';
      if mem[aut].size - (n + 20 + stuff) > 21 {
        mem, head := PlaceFront(mem, head, aut, prev, n, stuff, s, k);
        s' := Split(s, k, n, stuff, mem);
      } else {
        mem, head := PlaceWhole(mem, head, aut, prev, n, stuff, s, k);
        s' := Take(s, k, n, stuff, mem);
      }
      assert aut in s'.blocks;
      blocks, free := s'.blocks, s'.free;
      assert Now() == s';
    }

    /** A visit of the search: the tracker's checksum, the room in its block, and the next tracker. */
    method Inspect(aut: nat, n: nat, align: nat, ghost k: nat)
      returns (intact: bool, fits: bool, stuff: nat, next: nat)
      requires Valid() && blocks != map[] && k < |free| && aut == free[k]
      ensures intact && next == Next(free, k + 1) && stuff == StuffingOf(aut, align)
      ensures fits <==> Fits(blocks, aut, n, align)
    {
      assert FreeLinked(Now(), k);
      var tracker := mem[aut];
      stuff := GetByteStuffForAlign(tracker.base + 20, align);
      intact, fits, next := Intact(tracker), n + 20 + stuff <= tracker.size, tracker.link;
    }

    /** The first block with room is used; failure means none has; no checksum fails. */
    method Search(n: nat, align: nat) returns (r: Outcome, ghost k: nat)
      requires Valid() && blocks != map[]
      modifies this
      ensures Valid() && blocks != map[] && Served(old(Now()), n, align, k, r, Now())
    {
      k := 0;
      ghost var s := Now();
      var aut, prev := head, 0;
      while aut != 0
        invariant Valid() && Now() == s && blocks != map[]
        invariant k <= |s.free| && aut == Next(s.free, k) && prev == Next(s.free, k - 1)
        invariant NoneBefore(s, k, n, align)
        decreases |s.free| - k
      {
        var intact, fits, stuff, next := Inspect(aut, n, align, k);
        if !intact { return Corrupted, k; }
        if fits {
          var ret := Place(aut, prev, n, stuff, k);
          return Address(ret), k;
        }
        aut, prev, k := next, aut, k + 1;
      }
      SearchedAll(s, k, n, align);
      r := OutOfMemory;
    }

    /**
     First fit over the free list.  A list that has run empty is taken for an unused heap; otherwise live blocks stay
     where they are.
     */
    method Allocate(n: nat, align: nat) returns (r: Outcome, ghost k: nat)
      requires Valid() && n + 20 + align <= 0x1_0000_0000
      modifies this
      ensures Valid()
      ensures r == BadAlign <==> align != 0 && forall e: nat :: align != Power(e)
      ensures r == BadAlign ==> unchanged(this)
      ensures r != BadAlign ==> Served(Searched(old(Now())), n, align, k, r, Now())
      ensures r.Address? && align != 0 ==> r.value % align == 0
      ensures r.Address? ==> (MeetsLive(old(blocks), r.value - 20, r.value + n) <==> old(Exhausted()))
    {
      k := 0;
      if align != 0 { PowerOfTwoExact(align); }
      if align != 0 && !IsPowerOfTwo(align) { return BadAlign, 0; }
      ghost var s := Now();
      if head == 0 { Initialize(); }
      r, k := Search(n, align);
      if r.Address? { HandedOut(s, n, align, k, r, Now()); }
    }

    /** The words below `addr` read as a tracker decide; `garbage` is read where none stands. */
    method PushFreed(addr: nat, garbage: Tracker) returns (r: Freed)
      requires addr >= 20
      modifies `mem, `head
      ensures r == Verdict(Standing(old(mem), addr - 20, garbage))
      ensures r != Success ==> mem == old(mem) && head == old(head)
      ensures r == Success ==>
                var t := Standing(old(mem), addr - 20, garbage);
                var a := BlockOf(addr, t);
                head == a && mem == Store(old(mem), a, FreeTracker(a, t.size, old(head)))
    {
      var t := Standing(mem, addr - 20, garbage);
      if CheckSum(t) != t.check { return BadAddress; }
      if t.ret == 0 { return DoubleDelete; }
      var a := BlockOf(addr, t);
      mem, head := Store(mem, a, FreeTracker(a, t.size, head)), a;
      r := Success;
    }

    /** A live address is freed exactly; any other is judged by the words below it. */
    method DeAllocate(addr: nat, garbage: Tracker) returns (r: Freed)
      requires Valid() && addr < 0x1_0000_0000
      modifies this
      ensures addr == 0 ==> r == Success
      ensures 0 < addr <= start ==> r == BadDealloc
      ensures addr > start ==> r == Verdict(Standing(old(mem), addr - 20, garbage))
      ensures addr <= start || r != Success ==> unchanged(this)
      ensures addr > start && r == Success ==>
                var t := Standing(old(mem), addr - 20, garbage);
                var a := BlockOf(addr, t);
                head == a && mem == Store(old(mem), a, FreeTracker(a, t.size, old(head)))
      ensures forall a :: LiveReturn(old(blocks), a, addr) ==>
                r == Success && Valid() && blocks != map[] && Now() == Release(old(Now()), a)
    {
      if exists a :: LiveReturn(blocks, a, addr) {
        ghost var b :| LiveReturn(blocks, b, addr);
        LiveReleased(Now(), b, addr, garbage);
        blocks, free := blocks[b := Free(blocks[b].size)], [b] + free;
      }
      if addr == 0 { return Success; }
      if addr <= start { return BadDealloc; }
      r := PushFreed(addr, garbage);
    }

    /**
     A second free of an address.  With no stuffing before it the words below it are the free tracker: caught.  After a
     tracker's worth of stuffing they are the old tracker still: the list loops.  In between they are the old tracker
     with the free one stored over its first bytes, and the condition is exact.
     */
    method DeAllocateTwice(addr: nat, garbage: Tracker) returns (first: Freed, second: Freed, ghost a: nat)
      requires Valid() && addr < 0x1_0000_0000 && exists b :: LiveReturn(blocks, b, addr)
      modifies this
      ensures LiveReturn(old(blocks), a, addr) && first == Success
      ensures var b, next := old(blocks[a]), old(head);
              if b.stuff >= 20 then second == Success && head == a && a in mem && mem[a].link == a
              else
                var t := ReadAfterFree(a, b.size, next, b.stuff);
                && second == Verdict(t) && (second == Success ==> head == BlockOf(addr, t))
                && (second != Success ==> Valid() && Now() == Release(old(Now()), a))
                && (second == BadAddress <==> !PassesAgain(a, b.size, next, b.stuff))
                && (b.stuff in [1, 2, 3, 4, 16] && StuffedFor(a, b.stuff) ==> second == BadAddress)
                && (b.stuff == 0 ==> second == DoubleDelete)
    {
      a :| LiveReturn(blocks, a, addr);
      ghost var b, next := blocks[a], head;
      LiveStands(Now(), a, addr);
      assert LiveAt(Now(), a);
      if b.stuff < 20 { SecondVerdict(Now(), a); }
      var below := mem[addr - 20];
      first := DeAllocate(addr, garbage);
      var again := if below.link >= 20 then garbage
                   else ReadAfterFree(below.base, below.size, mem[below.base].link, below.link);
      second := DeAllocate(addr, again);
    }

    /** The owner of a block may write its payload as it likes. */
    method WritePayload(addr: nat, n: nat, forged: map<nat, Tracker>, ghost a: nat)
      requires Valid() && LiveReturn(blocks, a, addr) && n <= blocks[a].request
      modifies `mem
      ensures Valid() && Now() == old(Now()).(mem := Scribbled(old(mem), addr, addr + n, forged))
      ensures OnlyInside(addr, addr + n, old(mem), mem)
      ensures forall h :: h in mem && addr < h + 20 && h < addr + n ==> h in forged && mem[h] == forged[h]
    {
      LiveStands(Now(), a, addr);
      assert LiveAt(Now(), a);
      PayloadTracked(Now(), Scribbled(mem, addr, addr + n, forged), a);
      mem := Scribbled(mem, addr, addr + n, forged);
    }
  }

  /** Memory and list head once the front of a block is live and the rest free. */
  method PlaceFront(mem: map<nat, Tracker>, head: nat, aut: nat, prev: nat, n: nat, stuff: nat, ghost s: Arena,
                    ghost k: nat)
    returns (mem': map<nat, Tracker>, head': nat)
    requires Sound(s) && s.mem == mem && k < |s.free| && aut == s.free[k] && prev == Next(s.free, k - 1)
    requires head == Next(s.free, 0) && n + 20 + stuff + 21 < s.blocks[aut].size
    ensures Sound(Split(s, k, n, stuff, mem')) && HalvesTracked(s, k, n, stuff, mem')
    ensures head' == Next(Split(s, k, n, stuff, mem').free, 0)
  {
    assert aut in mem && mem[aut].size == s.blocks[aut].size && mem[aut].link == Next(s.free, k + 1) by {
      assert FreeLinked(s, k);
    }
    var size, maxSize, next := n + 20 + stuff, mem[aut].size, mem[aut].link;
    var m := Store(mem, aut + size, FreeTracker(aut + size, maxSize - size, next));
    m := Store(m, aut + stuff, LiveTracker(aut, size, stuff));
    assert m == SplitMemory(s, k, n, stuff);
    mem', head' := Relink(m, prev, aut + size), if prev == 0 then aut + size else head;
    SplitSound(s, k, n, stuff, mem');
  }

  /** Memory and list head once a block is live whole. */
  method PlaceWhole(mem: map<nat, Tracker>, head: nat, aut: nat, prev: nat, n: nat, stuff: nat, ghost s: Arena,
                    ghost k: nat)
    returns (mem': map<nat, Tracker>, head': nat)
    requires Sound(s) && s.mem == mem && k < |s.free| && aut == s.free[k] && prev == Next(s.free, k - 1)
    requires head == Next(s.free, 0) && n + 20 + stuff <= s.blocks[aut].size
    ensures Sound(Take(s, k, n, stuff, mem')) && head' == Next(Take(s, k, n, stuff, mem').free, 0)
    ensures Holds(mem', aut + stuff, LiveTracker(aut, s.blocks[aut].size, stuff))
  {
    assert aut in mem && mem[aut].size == s.blocks[aut].size && mem[aut].link == Next(s.free, k + 1) by {
      assert FreeLinked(s, k);
    }
    var maxSize, next := mem[aut].size, mem[aut].link;
    var m := Store(mem, aut + stuff, LiveTracker(aut, maxSize, stuff));
    assert m == TakeMemory(s, k, stuff);
    mem', head' := Relink(m, prev, next), if prev == 0 then next else head;
    TakeSound(s, k, n, stuff, mem');
  }
}
