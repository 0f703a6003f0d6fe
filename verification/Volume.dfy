/**
 A mounted volume as the directory code sees it: the allocation table read as 28-bit links, the data
 sectors, and the queue of free sectors.  TableCache.FileSystem implements the same table operations
 over a block cache; here the table is flat.
 */
module Volume {
  import opened Wrappers

  const EOC := 0x0FFF_FFFF
  const MAX_SECTORS_PER_RW := 8

  type byte = bv8
  type Sector = s: seq<byte> | |s| == 512 witness seq(512, _ => 0)

  const ZERO_SECTOR: Sector := seq(512, _ => 0)

  /** The sectors whose table entry is zero. */
  ghost function FreeSet(links: seq<nat>): set<nat> {
    set i | 0 <= i < |links| && links[i] == 0
  }

  ghost predicate IsFreePool(links: seq<nat>, pool: seq<nat>) {
    && (forall i :: 0 <= i < |pool| ==> pool[i] < |links| && links[pool[i]] == 0)
    && (forall i, j :: 0 <= i < j < |pool| ==> pool[i] != pool[j])
  }

  /** `data` with the sectors `ss` laid over it from `start` on. */
  ghost function Overlay(data: seq<Sector>, start: nat, ss: seq<Sector>): seq<Sector> {
    seq(|data|, i requires 0 <= i < |data| => if start <= i < start + |ss| then ss[i - start] else data[i])
  }

  /** `c` is the list of sectors reached from `start` through the table, up to the end mark. */
  ghost predicate IsWalk(links: seq<nat>, start: nat, c: seq<nat>) {
    && (forall i :: 0 <= i < |c| ==> c[i] < |links|)
    && (forall i :: 0 <= i < |c| - 1 ==> links[c[i]] == c[i + 1])
    && (if c == [] then start == EOC else c[0] == start && links[c[|c| - 1]] == EOC)
  }

  /** A walk over sectors in use: one from a free sector would go on through sector 0. */
  ghost predicate IsChain(links: seq<nat>, start: nat, c: seq<nat>) {
    IsWalk(links, start, c) && AllPositive(c)
  }

  ghost predicate AllPositive(c: seq<nat>) {
    forall i :: 0 <= i < |c| ==> 0 < c[i]
  }

  ghost predicate Distinct(c: seq<nat>) {
    forall i, j :: 0 <= i < j < |c| ==> c[i] != c[j]
  }

  lemma {:induction false} ChainNoRepeat(links: seq<nat>, start: nat, c: seq<nat>, i: nat, j: nat)
    requires |links| < EOC && IsWalk(links, start, c)
    requires i < j < |c|
    ensures c[i] != c[j]
    decreases |c| - j
  {
    assert links[c[i]] == c[i + 1];
    if j < |c| - 1 {
      ChainNoRepeat(links, start, c, i + 1, j + 1);
    }
  }

  /** A chain that ends cannot pass through a sector twice. */
  lemma ChainDistinct(links: seq<nat>, start: nat, c: seq<nat>)
    requires |links| < EOC && IsWalk(links, start, c)
    ensures Distinct(c)
  {
    forall i, j | 0 <= i < j < |c| ensures c[i] != c[j] {
      ChainNoRepeat(links, start, c, i, j);
    }
  }

  lemma {:induction false} ChainAgree(links: seq<nat>, start: nat, c: seq<nat>, e: seq<nat>, i: nat)
    requires |links| < EOC && IsWalk(links, start, c) && IsWalk(links, start, e)
    requires i < |c| && i < |e|
    ensures c[i] == e[i]
  {
    if i > 0 {
      ChainAgree(links, start, c, e, i - 1);
    }
  }

  lemma ChainNotLonger(links: seq<nat>, start: nat, c: seq<nat>, e: seq<nat>)
    requires |links| < EOC && IsWalk(links, start, c) && IsWalk(links, start, e)
    ensures |c| <= |e|
  {
    if |e| > 0 && |c| > |e| {
      var n := |e| - 1;
      assert links[c[n]] == c[n + 1] < EOC == links[e[n]];
      ChainAgree(links, start, c, e, n);
    }
  }

  /** The table and the first sector determine the chain. */
  lemma ChainUnique(links: seq<nat>, start: nat, c: seq<nat>, e: seq<nat>)
    requires |links| < EOC && IsWalk(links, start, c) && IsWalk(links, start, e)
    ensures c == e
  {
    ChainNotLonger(links, start, c, e);
    ChainNotLonger(links, start, e, c);
    forall i | 0 <= i < |c| ensures c[i] == e[i] {
      ChainAgree(links, start, c, e, i);
    }
  }

  ghost predicate Rising(s: seq<nat>) {
    forall i, j :: 0 <= i < j < |s| ==> s[i] < s[j]
  }

  /** The free sectors below `i`, in order. */
  ghost predicate Scanned(links: seq<nat>, pool: seq<nat>, i: nat) {
    && Rising(pool) && IsFreePool(links, pool) && (forall k :: 0 <= k < |pool| ==> pool[k] < i)
    && forall id :: 0 <= id < i && id in FreeSet(links) ==> id in pool
  }

  lemma ScanOne(links: seq<nat>, pool: seq<nat>, i: nat)
    requires Scanned(links, pool, i) && i < |links|
    ensures Scanned(links, if links[i] == 0 then pool + [i] else pool, i + 1) == true
  {
  }

  class Volume {
    var links: seq<nat>
    var data: seq<Sector>
    var freePool: seq<nat>
    const poolSize: nat

    ghost predicate Valid() reads this {
      && 0 < poolSize
      && 0 < |links| == |data| < EOC - 1
      && links[0] != 0
      && (forall i :: 0 <= i < |links| ==> links[i] <= EOC)
      && IsFreePool(links, freePool)
    }

    /** None is the source's exception for an id above the table. */
    method GetSectorEntryValue(id: nat) returns (r: Option<nat>)
      requires Valid() && id != |links|
      ensures r == if id < |links| then Some(links[id]) else None
    {
      if id > |links| { return None; }
      return Some(links[id]);
    }

    method SetSectorEntryValue(id: nat, value: nat) returns (ok: bool)
      requires Valid() && id != |links| && value <= EOC
      requires id < |links| && value != 0 ==> id !in freePool
      requires id == 0 ==> value != 0
      modifies this`links
      ensures Valid() && ok == (id < |old(links)|)
      ensures links == if ok then old(links)[id := value] else old(links)
    {
      if id > |links| { return false; }
      links := links[id := value];
      return true;
    }

    /** Takes the first queued free sector, refilling an empty queue; None when no sector is free. */
    method AllocateSector() returns (r: Option<nat>)
      requires Valid()
      modifies this`links, this`freePool
      ensures Valid()
      ensures r.None? <==> FreeSet(old(links)) == {}
      ensures r.None? ==> links == old(links)
      ensures r.Some? ==> 0 < r.value < |links| == |old(links)| && old(links)[r.value] == 0
      ensures r.Some? ==> links == old(links)[r.value := EOC] && r.value !in freePool
      ensures r.Some? ==> FreeSet(links) == FreeSet(old(links)) - {r.value}
      ensures old(freePool) != [] ==> r == Some(old(freePool)[0]) && freePool == old(freePool)[1..]
      ensures old(freePool) == [] && r.Some? ==> forall id :: id in FreeSet(old(links)) ==> r.value <= id
    {
      if freePool == [] {
        LoadFreeSectors();
        if freePool == [] { return None; }
      }
      var s := freePool[0];
      assert s in FreeSet(links);
      freePool := freePool[1..];
      links := links[s := EOC];
      return Some(s);
    }

    /** Frees a sector and answers the one it linked to; a full queue drops it, to be found by a later refill. */
    method DeAllocateSector(id: nat) returns (next: nat)
      requires Valid() && 0 < id < |links| && links[id] != 0
      modifies this`links, this`freePool
      ensures Valid() && next == old(links)[id] && links == old(links)[id := 0]
      ensures freePool == if |old(freePool)| < poolSize then old(freePool) + [id] else old(freePool)
    {
      next := links[id];
      links := links[id := 0];
      if |freePool| < poolSize {
        freePool := freePool + [id];
      }
    }

    /** Queues free sectors until the queue is full or the table has been scanned. */
    method LoadFreeSectors()
      requires Valid() && freePool == []
      modifies this`freePool
      ensures Valid() && (freePool == [] <==> FreeSet(links) == {})
      ensures Rising(freePool)
      ensures forall id :: id in FreeSet(links) && id !in freePool ==>
                |freePool| == poolSize && freePool[|freePool| - 1] < id
    {
      var i := 0;
      while i < |links| && |freePool| < poolSize
        invariant Valid() && i <= |links| && |freePool| <= poolSize && Scanned(links, freePool, i) == true
      {
        ScanOne(links, freePool, i);
        if links[i] == 0 {
          freePool := freePool + [i];
        }
        i := i + 1;
      }
      assert freePool != [] ==> freePool[0] in FreeSet(links);
    }

    method XRead(sector: nat, count: nat) returns (ss: seq<Sector>)
      requires Valid() && sector + count <= |data|
      ensures ss == data[sector..sector + count]
    {
      ss := data[sector..sector + count];
    }

    method XWrite(sector: nat, ss: seq<Sector>)
      requires Valid() && sector + |ss| <= |data|
      requires 0 < |ss| <= MAX_SECTORS_PER_RW
      modifies this`data
      ensures Valid() && data == Overlay(old(data), sector, ss)
    {
      data := data[..sector] + ss + data[sector + |ss|..];
    }
  }

  /** The coalescing buffer that gathers adjacent sectors before one device write. */
  class WriteBuffer {
    var start: nat
    var prev: nat
    var count: nat
    var buf: seq<Sector>

    constructor ()
      ensures Valid(0) && count == 0
    {
      start, prev, count := 0, 0, 0;
      buf := seq(MAX_SECTORS_PER_RW, _ => ZERO_SECTOR);
    }

    ghost predicate Valid(size: nat) reads this {
      && |buf| == MAX_SECTORS_PER_RW
      && count < MAX_SECTORS_PER_RW
      && (count > 0 ==> prev == start + count - 1 && start + count <= size)
    }

    /** The data area once what is buffered reaches it. */
    ghost function Pending(data: seq<Sector>): seq<Sector>
      requires Valid(|data|)
      reads this
    {
      Overlay(data, start, buf[..count])
    }

    method BufferedWrite(vol: Volume, sector: nat, bytes: Sector)
      requires vol.Valid() && Valid(|vol.data|) && sector < |vol.data|
      modifies this, vol`data
      ensures vol.Valid() && |vol.data| == |old(vol.data)| && Valid(|vol.data|)
      ensures Pending(vol.data) == old(Pending(vol.data))[sector := bytes]
      ensures if old(count) == 0 || sector == old(prev) + 1 then
                if old(count) + 1 < MAX_SECTORS_PER_RW then vol.data == old(vol.data) && count == old(count) + 1
                else vol.data == Pending(vol.data) && count == 0
              else
                vol.data == old(Pending(vol.data)) && count == 1
      ensures forall s :: 0 <= s < |vol.data| ==>
                vol.data[s] in {old(vol.data)[s], old(Pending(vol.data))[s], Pending(vol.data)[s]}
    {
      var newBuffering := false;
      if count == 0 {
        start, prev := sector, sector;
        buf := buf[0 := bytes];
        count := 1;
      } else if prev + 1 == sector {
        prev := sector;
        buf := buf[count := bytes];
        count := count + 1;
      } else {
        newBuffering := true;
      }
      if count == MAX_SECTORS_PER_RW || newBuffering {
        vol.XWrite(start, buf[..count]);
        count := 0;
        if newBuffering {
          start, prev := sector, sector;
          buf := buf[0 := bytes];
          count := 1;
        }
      }
    }

    method Flush(vol: Volume)
      requires vol.Valid() && Valid(|vol.data|)
      modifies this, vol`data
      ensures vol.Valid() && |vol.data| == |old(vol.data)| && Valid(|vol.data|)
      ensures count == 0 && vol.data == old(Pending(vol.data)) == Pending(vol.data)
    {
      if count > 0 {
        vol.XWrite(start, buf[..count]);
      }
      count := 0;
    }
  }

  ghost function WriteEach(data: seq<Sector>, ws: seq<(nat, Sector)>): seq<Sector>
    requires forall i :: 0 <= i < |ws| ==> ws[i].0 < |data|
    ensures |WriteEach(data, ws)| == |data|
  {
    if ws == [] then data
    else WriteEach(data, ws[..|ws| - 1])[ws[|ws| - 1].0 := ws[|ws| - 1].1]
  }

  /** Coalesced writes and a flush leave the disk as writing each sector alone, in order, would. */
  method CoalescedWrites(vol: Volume, ws: seq<(nat, Sector)>)
    requires vol.Valid() && forall i :: 0 <= i < |ws| ==> ws[i].0 < |vol.data|
    modifies vol`data
    ensures vol.Valid() && vol.data == WriteEach(old(vol.data), ws)
  {
    var wb := new WriteBuffer();
    assert wb.Pending(vol.data) == vol.data;
    for i := 0 to |ws|
      invariant vol.Valid() && |vol.data| == |old(vol.data)| && wb.Valid(|vol.data|)
      invariant wb.Pending(vol.data) == WriteEach(old(vol.data), ws[..i])
    {
      wb.BufferedWrite(vol, ws[i].0, ws[i].1);
      assert ws[..i + 1][..i] == ws[..i];
    }
    assert ws[..|ws|] == ws;
    wb.Flush(vol);
  }
}
