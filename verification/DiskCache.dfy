/**
 The write-back sector cache of a drive: a bounded map from sectors to pooled buffers, the dirty list that points into
 those buffers, and the release list from which clean sectors are evicted.
 */
module DiskCache {
  import opened Volume
  import opened ReleaseList
  import opened CacheState

  /** `now` is `v` with `data` stored from `at` on, at the indices from `a` up to `b` only. */
  ghost predicate Stored(v: seq<Sector>, now: seq<Sector>, at: nat, data: seq<Sector>, a: nat, b: nat) {
    && |now| == |v|
    && forall x :: 0 <= x < |v| ==> now[x] == if at + a <= x < at + b && x < at + |data| then data[x - at] else v[x]
  }

  lemma StoredJoin(v: seq<Sector>, v1: seq<Sector>, v2: seq<Sector>, now: seq<Sector>, at: nat, data: seq<Sector>,
                   first: nat, last: nat)
    requires at + |data| <= |v| && first <= last < |data|
    requires Stored(v, v1, at, data, 0, first) && Stored(v1, v2, at, data, last + 1, |data|)
    requires Stored(v2, now, at, data, first, last + 1)
    ensures now == Overlay(v, at, data)
  {
  }

  /** No list is built, or nothing clean is left on it: nothing is cached, and the list is spent. */
  ghost predicate ListSpent(d: Drive, d': Drive) {
    && (!d.built || forall i :: 0 <= i < |d.release| ==> d.release[i].sector in DirtySectors(d.dirty))
    && d' == if d.built then d.(release := [], built := false) else d
  }

  /** The first clean sector of the list is no longer cached; its buffer has the bytes of `s` now. */
  ghost predicate TookOver(d: Drive, d': Drive, s: nat, bytes: Sector) {
    && d.built && exists k :: TookPlaceOf(d, d', s, bytes, k)
  }

  ghost predicate TookPlaceOf(d: Drive, d': Drive, s: nat, bytes: Sector, k: nat) {
    && k < |d.release| && (forall i :: 0 <= i < k ==> d.release[i].sector in DirtySectors(d.dirty))
    && var t := d.release[k].sector;
    && t !in DirtySectors(d.dirty) && t in d.cache
    && d'.cache == (d.cache - {t})[s := d.cache[t]]
    && d.cache[t] < |d.cells| && d'.cells == d.cells[d.cache[t] := bytes]
    && d'.release == d.release[k + 1..] && d'.built == (d'.release != [])
  }

  /** A sector that was not cached is now, in a buffer of its own; or it took over another's, if any could be had. */
  ghost predicate TakenIn(d: Drive, d': Drive, s: nat, bytes: Sector) {
    && d'.raw == d.raw && d'.dirty == d.dirty
    && if |d.cache| < MAX_CACHE_SECTORS then
         && s in d'.cache && d'.cache == d.cache[s := d'.cache[s]] && d'.cache[s] < |d.cells|
         && d'.cells == d.cells[d'.cache[s] := bytes] && d'.cache[s] !in d.cache.Values
       else ListSpent(d, d') || TookOver(d, d', s, bytes)
  }

  /** With room it is cached and dirty, and the device is as it was; else it goes through to the device. */
  ghost predicate WrittenMiss(d: Drive, d': Drive, s: nat, bytes: Sector)
    requires s < |d.raw|
  {
    if |d.cache| < MAX_CACHE_SECTORS then
      TakenIn(d, d'.(dirty := d.dirty), s, bytes) && s in DirtySectors(d'.dirty)
    else
      TakenIn(d.(raw := d.raw[s := bytes]), d', s, bytes)
  }

  lemma MissesRead(d: Drive, s: nat, cell: nat, bytes: Sector)
    requires Pooled(d) && ReleaseOk(d) && s !in d.cache && s < |d.raw| && FreeFor(d, cell)
    ensures TakenIn(d, Turn(d, s, -1, bytes, cell, false), s, bytes) == true
  {
    if Full(d) {
      if Victims(d) != [] { VictimsOk(d); }
      ReplacedHow(d, s, bytes);
    }
  }

  lemma MissesWritten(d: Drive, s: nat, cell: nat, bytes: Sector)
    requires Pooled(d) && ReleaseOk(d) && s !in d.cache && s < |d.raw| && FreeFor(d, cell)
    ensures WrittenMiss(d, Turn(d, s, -1, bytes, cell, true), s, bytes) == true
  {
    if Full(d) {
      var d1 := d.(raw := d.raw[s := bytes]);
      if Victims(d) != [] { VictimsOk(d1); }
      ReplacedHow(d1, s, bytes);
    } else {
      InsertDirtySpec(d.dirty, SecKeyCacheValue(s, cell));
    }
  }

  /** What becomes of the list and the cache when a full cache is to take in a sector. */
  lemma ReplacedHow(d: Drive, s: nat, bytes: Sector)
    requires Pooled(d) && Full(d)
    ensures !d.built || Victims(d) == [] ==>
              forall cell :: 0 <= cell < |d.cells| ==> ListSpent(d, Replaced(d, s, cell, bytes)) == true
    ensures d.built && Victims(d) != [] && Victims(d)[0].sector in d.cache ==>
              forall cell :: FreeFor(d, cell) ==> TookOver(d, Replaced(d, s, cell, bytes), s, bytes) == true
  {
    var k := NextVictimSpec(d.release, DirtySectors(d.dirty));
    if d.built && Victims(d) != [] && Victims(d)[0].sector in d.cache {
      forall cell | FreeFor(d, cell) ensures TookOver(d, Replaced(d, s, cell, bytes), s, bytes) {
        FreedCellReused(d, Victims(d)[0].sector, cell);
        assert TookPlaceOf(d, Replaced(d, s, cell, bytes), s, bytes, k);
      }
    }
  }

  /** A hit whose sector an eviction took out of the cache, and which is written through all the same. */
  ghost predicate Lost(d: Drive, start: nat, ptrs: seq<int>, k: nat, last: nat, j: nat) {
    && j <= last < |ptrs| && ptrs[j] != -1 && start + j !in d.cache
    && (j < k ==> start + j in DirtySectors(d.dirty))
  }

  lemma LostForGood(d: Drive, start: nat, ptrs: seq<int>, k: nat, last: nat, j: nat)
    requires Lost(d, start, ptrs, k, last, j) && j < k
    ensures !DirtyCached(d)
  {
    var i :| 0 <= i < |d.dirty| && d.dirty[i].sector == start + j;
  }

  /** A hit at index `j` still to come whose buffer is the one of the miss at index `m`. */
  ghost predicate IsRobbed(d: Drive, start: nat, ptrs: seq<int>, m: nat, j: nat, last: nat) {
    && m < j <= last < |ptrs| && ptrs[m] == -1 && ptrs[j] != -1
    && start + m in d.cache && d.cache[start + m] == ptrs[j] && !Releasable(d.release, start + m)
  }

  lemma RobbedOn(d: Drive, start: nat, ptrs: seq<int>, k: nat, last: nat, bytes: Sector, cell: nat, m: nat, j: nat)
    requires Going(d, start, ptrs, k, last) == true && k <= last
    requires cell < |d.cells| && (ptrs[k] == -1 ==> FreeFor(d, cell))
    requires IsRobbed(d, start, ptrs, m, j, last) == true && m < k
    ensures IsRobbed(Turn(d, start + k, ptrs[k], bytes, cell, false), start, ptrs, m, j, last) == true
  {
    TurnCaches(d, start + k, ptrs[k], bytes, cell, false);
    if ptrs[k] == -1 && Full(d) && d.built && Victims(d) != [] {
      var i := NextVictimSpec(d.release, DirtySectors(d.dirty));
      assert d.release[i].sector != start + m;
    }
  }

  class DiskDrive {
    /** The device, sector by sector. */
    var raw: seq<Sector>
    var cells: seq<Sector>
    var cache: map<nat, nat>
    var dirty: seq<SecKeyCacheValue>
    var release: seq<Ranked>
    var releaseListBuilt: bool
    const lbaStart: nat

    function Now(): Drive reads this {
      Drive(raw, cells, cache, dirty, release, releaseListBuilt)
    }

    ghost predicate Valid() reads this {
      Sound(Now())
    }

    ghost function Seen(): seq<Sector> reads this requires Pooled(Now()) {
      View(Now())
    }

    /** Where a sector of the partition is on the device. */
    function Place(sector: nat): nat { lbaStart + sector }

    method InsertToDirtyList(v: SecKeyCacheValue)
      modifies `dirty
      ensures dirty == InsertDirty(old(dirty), v)
      ensures dirty == if exists i :: 0 <= i < |old(dirty)| && old(dirty)[i].sector == v.sector then old(dirty)
                       else old(dirty) + [v]
    {
      if !(exists i :: 0 <= i < |dirty| && dirty[i].sector == v.sector) {
        dirty := dirty + [v];
      }
    }

    /** A cell of the pool that no cached sector uses. */
    method CreateValue() returns (cell: nat)
      requires |cache| < |cells|
      ensures cell < |cells| && cell !in cache.Values
    {
      FreeCellExists(cache, |cells|);
      var c :| 0 <= c < |cells| && c !in cache.Values;
      return c;
    }

    /** A pooled buffer for a sector that is not cached. */
    method Add(s: nat, bytes: Sector) returns (cell: nat)
      requires |cache| < |cells|
      modifies `cells, `cache
      ensures cell < |old(cells)| && cell !in old(cache).Values && Now() == Added(old(Now()), s, cell, bytes)
      ensures cells == old(cells)[cell := bytes] && cache == old(cache)[s := cell]
    {
      cell := CreateValue();
      cells := cells[cell := bytes];
      cache := cache[s := cell];
    }

    /** A write through the pointer of a cached sector. */
    method WriteHit(s: nat, cell: nat, bytes: Sector)
      requires cell < |cells|
      modifies `cells, `dirty
      ensures Now() == HitWritten(old(Now()), s, cell, bytes)
    {
      cells := cells[cell := bytes];
      InsertToDirtyList(SecKeyCacheValue(s, cell));
    }

    /** Pops the release list down to its first clean sector. */
    method PopVictim() returns (found: bool, node: Ranked)
      requires release != []
      modifies `release
      ensures found <==> NextVictim(old(release), DirtySectors(dirty)) != []
      ensures found ==> NextVictim(old(release), DirtySectors(dirty)) == [node] + release
      ensures !found ==> release == []
    {
      found, node := false, release[0];
      while release != [] && !found
        invariant !found ==> NextVictim(old(release), DirtySectors(dirty)) == NextVictim(release, DirtySectors(dirty))
        invariant found ==> NextVictim(old(release), DirtySectors(dirty)) == [node] + release
        decreases !found, |release|
      {
        node := release[0];
        found := node.sector !in DirtySectors(dirty);
        release := release[1..];
      }
    }

    /**
     Evicts the first clean sector of the release list for a new one; without a built list nothing is cached.  It fails
     exactly when that sector is no longer cached, which a list without repeats rules out.
     */
    method ReplaceCache(s: nat, bytes: Sector) returns (ok: bool, ghost cell: nat)
      requires Pooled(Now()) && Full(Now()) && s !in cache && s < |raw|
      modifies `cells, `cache, `release, `releaseListBuilt
      ensures var d := old(Now());
              && (ok <==> (d.built && Victims(d) != [] ==> Victims(d)[0].sector in d.cache))
              && (ok ==> FreeFor(d, cell) && Now() == Replaced(d, s, cell, bytes))
              && (!ok ==> cells == d.cells && cache == d.cache)
      ensures ok ==> ListSpent(old(Now()), Now()) || TookOver(old(Now()), Now(), s, bytes)
    {
      ReplacedHow(Now(), s, bytes);
      cell := 0;
      if !releaseListBuilt { return true, 0; }
      if release == [] {
        releaseListBuilt := false;
        return true, 0;
      }
      var found, node := PopVictim();
      if !found {
        releaseListBuilt := false;
        return true, 0;
      }
      if node.sector !in cache { return false, 0; }
      EvictedSound(old(Now()), node.sector);
      cache := cache - {node.sector};
      cell := Add(s, bytes);
      if release == [] { releaseListBuilt := false; }
      return true, cell;
    }

    /** A read miss: cached in a free place or that of an evicted sector. */
    method ReadMiss(s: nat, bytes: Sector) returns (ghost cell: nat)
      requires Pooled(Now()) && ReleaseOk(Now()) && s !in cache && s < |raw|
      modifies `cells, `cache, `release, `releaseListBuilt
      ensures FreeFor(old(Now()), cell) && Now() == Turn(old(Now()), s, -1, bytes, cell, false)
      ensures TakenIn(old(Now()), Now(), s, bytes) == true
    {
      ghost var d := Now();
      if Full(Now()) {
        if Victims(Now()) != [] { VictimsOk(Now()); }
        var ok;
        ok, cell := ReplaceCache(s, bytes);
      } else {
        cell := Add(s, bytes);
      }
      MissesRead(d, s, cell, bytes);
    }

    /** A write miss: through to the device when the cache is full, else kept dirty. */
    method WriteMiss(s: nat, bytes: Sector) returns (ghost cell: nat)
      requires Pooled(Now()) && ReleaseOk(Now()) && s !in cache && s < |raw|
      modifies `raw, `cells, `cache, `dirty, `release, `releaseListBuilt
      ensures FreeFor(old(Now()), cell) && Now() == Turn(old(Now()), s, -1, bytes, cell, true)
      ensures WrittenMiss(old(Now()), Now(), s, bytes) == true
    {
      ghost var d := Now();
      if Full(Now()) {
        if Victims(Now()) != [] { VictimsOk(Now()); }
        raw := raw[s := bytes];
        var ok;
        ok, cell := ReplaceCache(s, bytes);
        MissesWritten(d, s, cell, bytes);
      } else {
        var c := Add(s, bytes);
        cell := c;
        InsertToDirtyList(SecKeyCacheValue(s, c));
        MissesWritten(d, s, cell, bytes);
      }
    }

    /** The pointers of the hits, -1 for a miss, and the first and last miss, both `n` when there is none. */
    method LookUp(start: nat, n: nat) returns (ptrs: seq<int>, first: nat, last: nat)
      ensures ptrs == Pointers(cache, start, n) && first == FirstMiss(ptrs) && last == LastMiss(ptrs)
    {
      ptrs, first, last := [], n, n;
      for k := 0 to n
        invariant ptrs == Pointers(cache, start, k) && MissesFound(ptrs, n, first, last) == true
      {
        ghost var before := ptrs;
        PointersNext(cache, start, k);
        if start + k in cache {
          ptrs := ptrs + [cache[start + k]];
        } else {
          ptrs := ptrs + [-1];
          if first == n { first := k; }
          last := k;
        }
        MissesFoundNext(before, ptrs, n);
      }
    }

    // -------------------------------------------------------------- reading

    /**
     The sectors from the first miss to the last: read from the device, misses cached, hits taken through their
     pointers.  They are what a reader sees exactly as long as no eviction takes a hit that is still to come; such a hit
     is answered with the bytes of the miss that has its buffer now.
     */
    method ReadSpan(start: nat, ptrs: seq<int>, first: nat, last: nat, buffer: seq<Sector>)
      returns (out: seq<Sector>, ghost fate: Fate)
      requires Valid() && first <= last && |buffer| == |ptrs| && Going(Now(), start, ptrs, first, last)
      requires HitsAhead(Now(), start, ptrs, first, last)
      modifies `cells, `cache, `release, `releaseListBuilt
      ensures Valid() && Seen() == old(Seen()) && SameAround(buffer, out, first, last)
      ensures SpanRead(old(Now()), start, ptrs, first, last, out, fate)
    {
      ghost var d := Now();
      out := RawRead(start, first, last, buffer);
      ReadingStarts(d, start, ptrs, first, last, out);
      ghost var raw' := out;
      out, fate := ReadTurns(start, ptrs, first, last, out, d);
      SameAroundTwice(buffer, raw', out, first, last);
      ReadingEnds(d, Now(), start, ptrs, first, last, out, fate);
    }

    method ReadTurns(start: nat, ptrs: seq<int>, first: nat, last: nat, buffer: seq<Sector>, ghost d: Drive)
      returns (out: seq<Sector>, ghost fate: Fate)
      requires Reading(d, Now(), start, ptrs, first, first, last, buffer, Safe) && first <= last
      modifies `cells, `cache, `release, `releaseListBuilt
      ensures Reading(d, Now(), start, ptrs, first, last + 1, last, out, fate) == true
      ensures SameAround(buffer, out, first, last)
    {
      out, fate := buffer, Safe;
      for k := first to last + 1
        invariant Reading(d, Now(), start, ptrs, first, k, last, out, fate) == true
        invariant SameAround(buffer, out, first, last)
      {
        ghost var before := out;
        out, fate := ReadTurn(start, ptrs, first, k, last, out, d, fate);
        SameTurn(buffer, before, out, first, k, last);
      }
    }

    /** The device's sectors from the first miss to the last take their places in the answer. */
    method RawRead(start: nat, first: nat, last: nat, buffer: seq<Sector>) returns (out: seq<Sector>)
      requires first <= last < |buffer| && start + |buffer| <= |raw|
      ensures SameAround(buffer, out, first, last)
      ensures forall i :: first <= i <= last ==> out[i] == raw[start + i]
    {
      out := buffer[..first] + raw[start + first..start + last + 1] + buffer[last + 1..];
    }

    method ReadTurn(start: nat, ptrs: seq<int>, first: nat, k: nat, last: nat, buffer: seq<Sector>, ghost d0: Drive,
                    ghost fate: Fate)
      returns (out: seq<Sector>, ghost fate': Fate)
      requires Reading(d0, Now(), start, ptrs, first, k, last, buffer, fate) == true && k <= last
      modifies `cells, `cache, `release, `releaseListBuilt
      ensures Reading(d0, Now(), start, ptrs, first, k + 1, last, out, fate') == true
      ensures SameAround(buffer, out, k, k)
    {
      ghost var d, cell := Now(), 0;
      out := buffer;
      if ptrs[k] == -1 {
        cell := ReadMiss(start + k, out[k]);
      } else {
        out := out[k := cells[ptrs[k]]];
      }
      fate' := ReadingOn(d0, d, start, ptrs, first, k, last, buffer, fate, cell, Now(), out);
    }

    /** The hits before the first miss and after the last, copied out. */
    method ReadHits(start: nat, ptrs: seq<int>, first: nat, last: nat, buffer: seq<Sector>) returns (out: seq<Sector>)
      requires Pooled(Now()) && ptrs == Pointers(cache, start, |buffer|) && start + |buffer| <= |raw|
      requires first == FirstMiss(ptrs) && last == LastMiss(ptrs)
      ensures |out| == |buffer|
      ensures forall k :: 0 <= k < |out| && (k < first || last < k) ==> out[k] == Seen()[start + k]
    {
      out := buffer;
      PointersRight(Now(), start, |buffer|);
      FirstMissSpec(ptrs);
      LastMissSpec(ptrs);
      for k := 0 to first
        invariant |out| == |buffer| && forall j :: 0 <= j < k ==> out[j] == Seen()[start + j]
      {
        out := out[k := cells[ptrs[k]]];
      }
      for k := if last < |ptrs| then last + 1 else last to |ptrs|
        invariant |out| == |buffer|
        invariant forall j :: 0 <= j < |out| && (j < first || last < j < k) ==> out[j] == Seen()[start + j]
      {
        out := out[k := cells[ptrs[k]]];
      }
    }

    /**
     Reads `n` sectors.  When the request evicts no hit it has still to use, all of them are what a reader sees; else a
     hit is answered with the bytes of a miss before it.
     */
    method Read(sector: nat, n: nat, buffer: seq<Sector>) returns (out: seq<Sector>)
      requires Valid() && |buffer| == n && Place(sector) + n <= |raw|
      modifies `cells, `cache, `release, `releaseListBuilt
      ensures Valid() && Seen() == old(Seen()) && |out| == n
      ensures ReadOutcome(old(Now()), Place(sector), n, out)
    {
      ghost var d := Now();
      var start := Place(sector);
      var ptrs, first, last := LookUp(start, n);
      assert Now() == d;
      out := ReadHits(start, ptrs, first, last, buffer);
      ghost var outer := out;
      assert Now() == d;
      if first < n {
        RequestGoes(d, start, n);
        ghost var fate;
        out, fate := ReadSpan(start, ptrs, first, last, out);
        ReadJoined(d, start, first, last, outer, out, fate);
      } else {
        AllHits(d, start, out);
      }
    }

    // -------------------------------------------------------------- writing

    /** Writes through the pointers of the hits at indices `from` to `to`. */
    method WriteHits(start: nat, ptrs: seq<int>, from: nat, to: nat, data: seq<Sector>, ghost d: Drive)
      requires d == Now() && HitsWritable(d, start, ptrs, from, to, data) == true
      modifies `cells, `dirty
      ensures HitsWritten(d, Now(), start, data, from, to) == true
    {
      NoneWritten(d, start, data, from);
      for k := from to to
        invariant HitsWritten(d, Now(), start, data, from, k) == true
      {
        WriteOwnHit(start, ptrs, from, k, to, data, d);
      }
    }

    /** A write through a pointer that is right. */
    method WriteOwnHit(start: nat, ptrs: seq<int>, from: nat, k: nat, to: nat, data: seq<Sector>, ghost d: Drive)
      requires HitsWritable(d, start, ptrs, from, to, data) == true && from <= k < to
      requires HitsWritten(d, Now(), start, data, from, k) == true
      modifies `cells, `dirty
      ensures HitsWritten(d, Now(), start, data, from, k + 1) == true
    {
      HitsOn(d, Now(), start, ptrs, from, k, to, data);
      WriteHit(start + k, ptrs[k], data[k]);
    }

    /** One sector of the span, through its pointer or as a miss. */
    method WriteTurn(start: nat, ptrs: seq<int>, first: nat, k: nat, last: nat, data: seq<Sector>, ghost d0: Drive,
                     ghost lost: int)
      returns (ghost lost': int)
      requires Writing(d0, Now(), start, ptrs, first, k, last, data, lost) == true && k <= last
      modifies `raw, `cells, `cache, `dirty, `release, `releaseListBuilt
      ensures Writing(d0, Now(), start, ptrs, first, k + 1, last, data, lost') == true
    {
      ghost var d, cell := Now(), 0;
      if ptrs[k] == -1 {
        cell := WriteMiss(start + k, data[k]);
      } else {
        WriteHit(start + k, ptrs[k], data[k]);
      }
      lost' := WritingOn(d0, d, start, ptrs, first, k, last, data, lost, cell);
    }

    /** The sectors from the first miss to the last. */
    method WriteSpan(start: nat, ptrs: seq<int>, first: nat, last: nat, data: seq<Sector>, ghost d: Drive)
      requires d == Now() && Sound(d) == true && first <= last && |data| == |ptrs|
      requires Going(d, start, ptrs, first, last) == true && HitsAhead(d, start, ptrs, first, last) == true
      modifies `raw, `cells, `cache, `dirty, `release, `releaseListBuilt
      ensures SpanWritten(d, Now(), start, ptrs, first, last, data) == true
    {
      ghost var lost := -1;
      WritingStarts(d, start, ptrs, first, last, data);
      for k := first to last + 1
        invariant Writing(d, Now(), start, ptrs, first, k, last, data, lost) == true
      {
        lost := WriteTurn(start, ptrs, first, k, last, data, d, lost);
      }
      WritingEnds(d, Now(), start, ptrs, first, last, data, lost);
    }

    /**
     Writes `n` sectors.  Exactly when the request evicts no hit it has still to use, what a reader sees changes by the
     data; else the dirty list ends up naming a sector that is not cached.
     */
    method Write(sector: nat, data: seq<Sector>)
      requires Valid() && Place(sector) + |data| <= |raw|
      modifies `raw, `cells, `cache, `dirty, `release, `releaseListBuilt
      ensures WriteOutcome(old(Now()), Now(), Place(sector), data)
    {
      ghost var d := Now();
      var start := Place(sector);
      var ptrs, first, last := LookUp(start, |data|);
      assert Now() == d;
      if first == |data| {
        HitsRight(d, start, data, ptrs, first, last);
        WriteHits(start, ptrs, 0, first, data, d);
        AllHitsWritten(d, Now(), start, data, ptrs, last);
      } else {
        WriteAround(start, ptrs, first, last, data, d);
      }
    }

    /** A write that misses: the hits around the span, then the span. */
    method WriteAround(start: nat, ptrs: seq<int>, first: nat, last: nat, data: seq<Sector>, ghost d: Drive)
      requires d == Now() && Asked(d, start, data, ptrs, first, last) == true && first < |data|
      modifies `raw, `cells, `cache, `dirty, `release, `releaseListBuilt
      ensures WriteOutcome(d, Now(), start, data) == true
    {
      ghost var d1 := WriteOuter(start, ptrs, first, last, data, d);
      ghost var d2 := Now();
      SpanReady(d, d1, d2, start, data, ptrs, first, last);
      WriteSpan(start, ptrs, first, last, data, d2);
      WriteJoined(d, d1, d2, Now(), start, data, ptrs, first, last);
    }

    /** The hits before the first miss and those behind the last. */
    method WriteOuter(start: nat, ptrs: seq<int>, first: nat, last: nat, data: seq<Sector>, ghost d: Drive)
      returns (ghost d1: Drive)
      requires d == Now() && Asked(d, start, data, ptrs, first, last) == true && first < |data|
      modifies `cells, `dirty
      ensures first <= last < |data| && OuterWritten(d, d1, Now(), start, data, first, last)
    {
      HitsRight(d, start, data, ptrs, first, last);
      WriteHits(start, ptrs, 0, first, data, d);
      d1 := Now();
      OuterReady(d, d1, start, data, ptrs, first, last);
      WriteHits(start, ptrs, last + 1, |data|, data, d1);
    }

    // -------------------------------------------------------------- flushing and rebuilding

    /** Takes the first entry off the dirty list and writes its buffer out. */
    method FlushFirst()
      requires Valid() && dirty != []
      modifies `raw, `dirty
      ensures Valid() && Seen() == old(Seen()) && dirty == old(dirty)[1..]
    {
      FirstFlushedSound(Now());
      var v := dirty[0];
      dirty := dirty[1..];
      raw := raw[v.sector := cells[v.cell]];
    }

    /** Writes out the first `count` dirty sectors, or all of them when `count` is negative. */
    method FlushDirtyCacheSectors(count: int)
      requires Valid()
      modifies `raw, `dirty
      ensures Valid() && Seen() == old(Seen())
      ensures dirty == if 0 <= count < |old(dirty)| then old(dirty)[count..] else []
      ensures dirty == [] ==> raw == Seen()
    {
      var left := count;
      ghost var n := 0;
      while left != 0 && dirty != []
        invariant Valid() && Seen() == old(Seen())
        invariant 0 <= n <= |old(dirty)| && dirty == old(dirty)[n..] && left == count - n && (0 <= count ==> 0 <= left)
        decreases |dirty|
      {
        FlushFirst();
        left := left - 1;
        n := n + 1;
      }
    }

    /**
     Ranks the clean cached sectors, in key order, into a short ascending list, once the cache is full.  It goes well
     exactly when that lists no sector twice.
     */
    method LFUCacheCleanUp(keys: seq<nat>, rank: nat -> real)
      requires Valid() && Increasing(keys) && forall i :: 0 <= i < |keys| ==> keys[i] in cache
      modifies `release, `releaseListBuilt
      ensures Now() == Rebuilt(old(Now()), keys, rank) && Seen() == old(Seen())
      ensures Valid() <==> RebuildsWell(old(Now()), keys, rank)
      ensures if |old(cache)| < MAX_CACHE_SECTORS || old(releaseListBuilt) then
                release == old(release) && releaseListBuilt == old(releaseListBuilt)
              else
                releaseListBuilt == (|release| == MAX_RELEASE_LIST)
    {
      ghost var d := Now();
      RebuiltSound(d, keys, rank);
      if !Full(Now()) || releaseListBuilt { return; }
      for i := 0 to |keys|
        invariant !releaseListBuilt && release == Built(d.release, DirtySectors(d.dirty), keys[..i], rank)
      {
        BuiltOn(d.release, DirtySectors(d.dirty), keys, rank, i);
        release := Visit(release, DirtySectors(dirty), keys[i], rank(keys[i]));
      }
      assert keys[..|keys|] == keys;
      if |release| == MAX_RELEASE_LIST {
        releaseListBuilt := true;
      }
    }
  }

  ghost predicate SameAround(was: seq<Sector>, now: seq<Sector>, first: nat, last: nat) {
    |now| == |was| && forall k :: 0 <= k < |was| && (k < first || last < k) ==> now[k] == was[k]
  }

  lemma SameAroundTwice(a: seq<Sector>, b: seq<Sector>, c: seq<Sector>, first: nat, last: nat)
    requires SameAround(a, b, first, last) && SameAround(b, c, first, last)
    ensures SameAround(a, c, first, last)
  {
  }

  lemma SameTurn(a: seq<Sector>, b: seq<Sector>, c: seq<Sector>, first: nat, k: nat, last: nat)
    requires SameAround(a, b, first, last) && SameAround(b, c, k, k) && first <= k <= last
    ensures SameAround(a, c, first, last)
  {
  }

  /** Whether all hits of a read were where they should be, or which one was robbed by which miss. */
  datatype Fate = Safe | Robbed(m: nat, j: nat)

  /** A read before turn `k`. */
  ghost predicate Reading(d0: Drive, d: Drive, start: nat, ptrs: seq<int>, first: nat, k: nat, last: nat,
                          out: seq<Sector>, fate: Fate)
  {
    && Unharmed(d0, d, start, ptrs, first, k, last, out)
    && FateSoFar(d0, d, start, ptrs, first, k, last, out, fate)
  }

  /** Whatever has become of the hits, what a reader sees is as before, and the rest of the answer is the device's. */
  ghost predicate Unharmed(d0: Drive, d: Drive, start: nat, ptrs: seq<int>, first: nat, k: nat, last: nat,
                           out: seq<Sector>)
  {
    && Pooled(d0) && first <= k
    && Sound(d) && View(d) == View(d0) && d.raw == d0.raw && Going(d, start, ptrs, k, last) && |out| == |ptrs|
    && (forall i :: k <= i <= last ==> out[i] == d.raw[start + i])
  }

  /** Exactly when a request spares its hits they are all answered right. */
  ghost predicate FateSoFar(d0: Drive, d: Drive, start: nat, ptrs: seq<int>, first: nat, k: nat, last: nat,
                            out: seq<Sector>, fate: Fate)
    requires Pooled(d0)
  {
    var survives := Survives(PlanOf(d0), start, ptrs, first, last, false);
    match fate
    case Safe =>
      && HitsAhead(d, start, ptrs, k, last) && AnsweredBy(View(d0), start, out, first, k)
      && survives == Survives(PlanOf(d), start, ptrs, k, last, false)
    case Robbed(m, j) =>
      && !survives && first <= m < k && IsRobbed(d, start, ptrs, m, j, last)
      && j < |out| && start + m < |d0.raw| && (j < k ==> out[j] == View(d0)[start + m])
  }

  lemma ReadingStarts(d: Drive, start: nat, ptrs: seq<int>, first: nat, last: nat, out: seq<Sector>)
    requires Sound(d) && Going(d, start, ptrs, first, last) && HitsAhead(d, start, ptrs, first, last)
    requires |out| == |ptrs| && forall i :: first <= i <= last ==> out[i] == d.raw[start + i]
    ensures Reading(d, d, start, ptrs, first, first, last, out, Safe)
  {
  }

  lemma ReadingOn(d0: Drive, d: Drive, start: nat, ptrs: seq<int>, first: nat, k: nat, last: nat, out: seq<Sector>,
                  fate: Fate, cell: nat, d': Drive, out': seq<Sector>)
    returns (fate': Fate)
    requires Reading(d0, d, start, ptrs, first, k, last, out, fate) == true && k <= last
    requires cell < |d.cells| && (ptrs[k] == -1 ==> FreeFor(d, cell))
    requires d' == Turn(d, start + k, ptrs[k], out[k], cell, false)
    requires out' == if ptrs[k] == -1 then out else out[k := d.cells[ptrs[k]]]
    ensures Reading(d0, d', start, ptrs, first, k + 1, last, out', fate') == true
  {
    UnharmedOn(d0, d, start, ptrs, first, k, last, out, cell);
    if fate == Safe {
      fate' := StillSafe(d0, d, start, ptrs, first, k, last, out, cell);
    } else {
      fate' := fate;
      StillRobbed(d0, d, start, ptrs, first, k, last, out, fate.m, fate.j, cell);
    }
  }

  lemma UnharmedOn(d0: Drive, d: Drive, start: nat, ptrs: seq<int>, first: nat, k: nat, last: nat, out: seq<Sector>,
                   cell: nat)
    requires Unharmed(d0, d, start, ptrs, first, k, last, out) == true && k <= last
    requires cell < |d.cells| && (ptrs[k] == -1 ==> FreeFor(d, cell))
    requires ptrs[k] != -1 ==> ptrs[k] < |d.cells|
    ensures var d' := Turn(d, start + k, ptrs[k], out[k], cell, false);
            var out' := if ptrs[k] == -1 then out else out[k := d.cells[ptrs[k]]];
            Unharmed(d0, d', start, ptrs, first, k + 1, last, out') == true
  {
    TurnReads(d, start + k, ptrs[k], out[k], cell);
    TurnGoes(d, start, ptrs, k, last, out[k], cell, false);
  }

  lemma StillRobbed(d0: Drive, d: Drive, start: nat, ptrs: seq<int>, first: nat, k: nat, last: nat, out: seq<Sector>,
                    m: nat, j: nat, cell: nat)
    requires Reading(d0, d, start, ptrs, first, k, last, out, Robbed(m, j)) == true && k <= last
    requires cell < |d.cells| && (ptrs[k] == -1 ==> FreeFor(d, cell))
    ensures var d' := Turn(d, start + k, ptrs[k], out[k], cell, false);
            var out' := if ptrs[k] == -1 then out else out[k := d.cells[ptrs[k]]];
            FateSoFar(d0, d', start, ptrs, first, k + 1, last, out', Robbed(m, j)) == true
  {
    RobbedOn(d, start, ptrs, k, last, out[k], cell, m, j);
  }

  lemma StillSafe(d0: Drive, d: Drive, start: nat, ptrs: seq<int>, first: nat, k: nat, last: nat, out: seq<Sector>,
                  cell: nat)
    returns (fate': Fate)
    requires Reading(d0, d, start, ptrs, first, k, last, out, Safe) == true && k <= last
    requires cell < |d.cells| && (ptrs[k] == -1 ==> FreeFor(d, cell))
    ensures var d' := Turn(d, start + k, ptrs[k], out[k], cell, false);
            var out' := if ptrs[k] == -1 then out else out[k := d.cells[ptrs[k]]];
            FateSoFar(d0, d', start, ptrs, first, k + 1, last, out', fate') == true
  {
    if Spares(PlanOf(d), start + k, ptrs[k] != -1, start + last) {
      PlanTurn(d, start + k, ptrs[k], out[k], cell, false);
      TurnKeepsHits(d, start, ptrs, k, last, out[k], cell, false);
      AnswersOn(d, start, ptrs, first, k, last, out);
      fate' := Safe;
    } else {
      var j := TurnSteals(d, start, ptrs, k, last, out[k], cell, false);
      fate' := Robbed(k, j);
    }
  }

  /** The answer at index `k` is right when its pointer is. */
  lemma AnswersOn(d: Drive, start: nat, ptrs: seq<int>, first: nat, k: nat, last: nat, out: seq<Sector>)
    requires Going(d, start, ptrs, k, last) && HitsAhead(d, start, ptrs, k, last) && k <= last && |out| == |ptrs|
    requires AnsweredBy(View(d), start, out, first, k) && out[k] == d.raw[start + k]
    ensures AnsweredBy(View(d), start, if ptrs[k] == -1 then out else out[k := d.cells[ptrs[k]]], first, k + 1)
  {
  }

  /** What came of the span of a read. */
  ghost predicate SpanRead(d: Drive, start: nat, ptrs: seq<int>, first: nat, last: nat, out: seq<Sector>, fate: Fate)
    requires Pooled(d)
  {
    if Survives(PlanOf(d), start, ptrs, first, last, false) then
      fate == Safe && AnsweredBy(View(d), start, out, first, last + 1)
    else
      && fate.Robbed? && first <= fate.m < fate.j <= last < |ptrs| && fate.j < |out| && start + fate.m < |d.raw|
      && ptrs[fate.m] == -1 && ptrs[fate.j] != -1 && out[fate.j] == View(d)[start + fate.m]
  }

  lemma ReadingEnds(d0: Drive, d: Drive, start: nat, ptrs: seq<int>, first: nat, last: nat, out: seq<Sector>,
                    fate: Fate)
    requires Reading(d0, d, start, ptrs, first, last + 1, last, out, fate)
    ensures SpanRead(d0, start, ptrs, first, last, out, fate)
  {
  }

  /** A read answers what a reader sees, or a hit with the bytes of a miss before it. */
  ghost predicate ReadOutcome(d: Drive, start: nat, n: nat, out: seq<Sector>)
    requires Pooled(d) && start + n <= |d.raw|
  {
    if ReadSurvives(d, start, n) then out == View(d)[start..start + n]
    else exists m: nat, j: nat :: Answered(d, start, out, m, j)
  }

  lemma AllHits(d: Drive, start: nat, out: seq<Sector>)
    requires Pooled(d) && start + |out| <= |d.raw| && FirstMiss(Pointers(d.cache, start, |out|)) == |out|
    requires forall k :: 0 <= k < |out| ==> out[k] == View(d)[start + k]
    ensures ReadOutcome(d, start, |out|, out)
  {
  }

  /** The span and what is around it make up the answer. */
  lemma ReadJoined(d: Drive, start: nat, first: nat, last: nat, outer: seq<Sector>, out: seq<Sector>, fate: Fate)
    requires Pooled(d) && start + |outer| <= |d.raw| && SameAround(outer, out, first, last) && first <= last < |outer|
    requires forall k :: 0 <= k < |outer| && (k < first || last < k) ==> outer[k] == View(d)[start + k]
    requires var ptrs := Pointers(d.cache, start, |outer|);
             && first == FirstMiss(ptrs) && last == LastMiss(ptrs) && SpanRead(d, start, ptrs, first, last, out, fate)
    ensures ReadOutcome(d, start, |outer|, out)
  {
    if ReadSurvives(d, start, |outer|) {
      forall k | 0 <= k < |outer| ensures out[k] == View(d)[start + k] {}
    } else {
      assert Answered(d, start, out, fate.m, fate.j);
    }
  }

  /** The hit at index `j` is answered with the bytes of the miss at index `m`. */
  ghost predicate Answered(d: Drive, start: nat, out: seq<Sector>, m: nat, j: nat) {
    && Pooled(d) && m < j < |out| && start + m < |d.raw|
    && start + m !in d.cache && start + j in d.cache && out[j] == View(d)[start + m]
  }

  ghost predicate AnsweredBy(v: seq<Sector>, start: nat, out: seq<Sector>, from: nat, to: nat) {
    from <= to <= |out| && start + |out| <= |v| && forall k :: from <= k < to ==> out[k] == v[start + k]
  }

  /** A write before turn `k`: all in order, or a hit lost at index `lost`. */
  ghost predicate Writing(d0: Drive, d: Drive, start: nat, ptrs: seq<int>, first: nat, k: nat, last: nat,
                          data: seq<Sector>, lost: int)
  {
    && Pooled(d0) && Going(d, start, ptrs, k, last) && first <= k && |data| == |ptrs| && -1 <= lost
    && var survives := Survives(PlanOf(d0), start, ptrs, first, last, true);
    && if lost == -1 then
         && Sound(d) && HitsAhead(d, start, ptrs, k, last) && Stored(View(d0), View(d), start, data, first, k)
         && survives == Survives(PlanOf(d), start, ptrs, k, last, true)
       else
         !survives && Lost(d, start, ptrs, k, last, lost)
  }

  lemma WritingOn(d0: Drive, d: Drive, start: nat, ptrs: seq<int>, first: nat, k: nat, last: nat, data: seq<Sector>,
                  lost: int, cell: nat)
    returns (lost': int)
    requires Writing(d0, d, start, ptrs, first, k, last, data, lost) && k <= last
    requires cell < |d.cells| && (ptrs[k] == -1 ==> FreeFor(d, cell))
    ensures Writing(d0, Turn(d, start + k, ptrs[k], data[k], cell, true), start, ptrs, first, k + 1, last, data, lost')
  {
    TurnGoes(d, start, ptrs, k, last, data[k], cell, true);
    lost' := lost;
    if lost != -1 {
      TurnCaches(d, start + k, ptrs[k], data[k], cell, true);
    } else if Spares(PlanOf(d), start + k, ptrs[k] != -1, start + last) {
      WrittenRight(d0, d, start, ptrs, first, k, last, data, cell);
    } else {
      lost' := TurnSteals(d, start, ptrs, k, last, data[k], cell, true);
    }
  }

  lemma WrittenRight(d0: Drive, d: Drive, start: nat, ptrs: seq<int>, first: nat, k: nat, last: nat,
                     data: seq<Sector>, cell: nat)
    requires Writing(d0, d, start, ptrs, first, k, last, data, -1) && k <= last
    requires cell < |d.cells| && (ptrs[k] == -1 ==> FreeFor(d, cell))
    requires Spares(PlanOf(d), start + k, ptrs[k] != -1, start + last)
    ensures Writing(d0, Turn(d, start + k, ptrs[k], data[k], cell, true), start, ptrs, first, k + 1, last, data, -1)
  {
    TurnGoes(d, start, ptrs, k, last, data[k], cell, true);
    PlanTurn(d, start + k, ptrs[k], data[k], cell, true);
    TurnKeepsHits(d, start, ptrs, k, last, data[k], cell, true);
    TurnSound(d, start + k, ptrs[k], data[k], cell, true);
    StoredOn(View(d0), View(d), start, data, first, k);
  }

  lemma StoredOn(v: seq<Sector>, now: seq<Sector>, at: nat, data: seq<Sector>, a: nat, k: nat)
    requires Stored(v, now, at, data, a, k) && a <= k < |data| && at + |data| <= |v|
    ensures Stored(v, now[at + k := data[k]], at, data, a, k + 1)
  {
  }

  lemma BuiltOn(release: seq<Ranked>, dirty: set<nat>, keys: seq<nat>, rank: nat -> real, i: nat)
    requires i < |keys|
    ensures Built(release, dirty, keys[..i + 1], rank) ==
            Visit(Built(release, dirty, keys[..i], rank), dirty, keys[i], rank(keys[i]))
  {
    assert keys[..i + 1][..i] == keys[..i];
  }

  lemma WritingStarts(d: Drive, start: nat, ptrs: seq<int>, first: nat, last: nat, data: seq<Sector>)
    requires Sound(d) && Going(d, start, ptrs, first, last) && HitsAhead(d, start, ptrs, first, last)
    requires |data| == |ptrs|
    ensures Writing(d, d, start, ptrs, first, first, last, data, -1)
  {
  }

  /** What came of the span of a write. */
  ghost predicate SpanWritten(d: Drive, d': Drive, start: nat, ptrs: seq<int>, first: nat, last: nat,
                              data: seq<Sector>)
    requires Pooled(d)
  {
    if Survives(PlanOf(d), start, ptrs, first, last, true) then
      Sound(d') && Stored(View(d), View(d'), start, data, first, last + 1)
    else !DirtyCached(d')
  }

  lemma WritingEnds(d: Drive, d': Drive, start: nat, ptrs: seq<int>, first: nat, last: nat, data: seq<Sector>,
                    lost: int)
    requires Writing(d, d', start, ptrs, first, last + 1, last, data, lost)
    ensures SpanWritten(d, d', start, ptrs, first, last, data)
  {
    if lost != -1 { LostForGood(d', start, ptrs, last + 1, last, lost); }
  }

  ghost predicate HitsWritable(d: Drive, start: nat, ptrs: seq<int>, from: nat, to: nat, data: seq<Sector>) {
    && Sound(d) && from <= to <= |ptrs| == |data| && start + |data| <= |d.raw|
    && forall k :: from <= k < to ==> ptrs[k] != -1 && start + k in d.cache && d.cache[start + k] == ptrs[k]
  }

  /** Hits have been written through: only buffers and the dirty list have changed. */
  ghost predicate HitsWritten(d: Drive, d': Drive, start: nat, data: seq<Sector>, from: nat, to: nat) {
    && Pooled(d) && Sound(d') && d'.(cells := d.cells, dirty := d.dirty) == d
    && Stored(View(d), View(d'), start, data, from, to)
    && DirtySectors(d'.dirty) == DirtySectors(d.dirty) + Span(start + from, start + to)
  }

  lemma NoneWritten(d: Drive, start: nat, data: seq<Sector>, from: nat)
    requires Sound(d)
    ensures HitsWritten(d, d, start, data, from, from)
  {
  }

  lemma HitsOn(d: Drive, d': Drive, start: nat, ptrs: seq<int>, from: nat, k: nat, to: nat, data: seq<Sector>)
    requires HitsWritable(d, start, ptrs, from, to, data) == true && from <= k < to
    requires HitsWritten(d, d', start, data, from, k) == true
    ensures 0 <= ptrs[k] < |d'.cells|
    ensures HitsWritten(d, HitWritten(d', start + k, ptrs[k], data[k]), start, data, from, k + 1)
  {
    assert ptrs[k] != -1 && start + k in d.cache && d.cache[start + k] == ptrs[k];
    HitOn(d', start + k, ptrs[k], data[k]);
    StoredOn(View(d), View(d'), start, data, from, k);
    assert Span(start + from, start + (k + 1)) == Span(start + from, start + k) + {start + k};
  }

  lemma HitOn(d: Drive, s: nat, cell: nat, bytes: Sector)
    requires Sound(d) == true && s in d.cache && d.cache[s] == cell
    ensures cell < |d.cells|
    ensures var d' := HitWritten(d, s, cell, bytes);
            && Sound(d') && View(d') == View(d)[s := bytes]
            && DirtySectors(d'.dirty) == DirtySectors(d.dirty) + {s}
  {
    HitWrittenSound(d, s, cell, bytes);
    InsertDirtySpec(d.dirty, SecKeyCacheValue(s, cell));
  }

  /** A request for all of `data`, as it was looked up. */
  ghost predicate Asked(d: Drive, start: nat, data: seq<Sector>, ptrs: seq<int>, first: nat, last: nat) {
    && Sound(d) && start + |data| <= |d.raw| && ptrs == Pointers(d.cache, start, |data|)
    && first == FirstMiss(ptrs) && last == LastMiss(ptrs)
  }

  lemma HitsRight(d: Drive, start: nat, data: seq<Sector>, ptrs: seq<int>, first: nat, last: nat)
    requires Asked(d, start, data, ptrs, first, last)
    ensures HitsWritable(d, start, ptrs, 0, first, data)
  {
    forall k | 0 <= k < first ensures ptrs[k] != -1 && start + k in d.cache && d.cache[start + k] == ptrs[k] {
      HitBefore(d.cache, start, |data|, ptrs, first, k);
    }
  }

  /** What comes before the first miss is a hit. */
  lemma HitBefore(cache: map<nat, nat>, start: nat, n: nat, ptrs: seq<int>, first: nat, k: nat)
    requires ptrs == Pointers(cache, start, n) && first == FirstMiss(ptrs) && k < first
    ensures k < n && ptrs[k] != -1 && start + k in cache && cache[start + k] == ptrs[k]
  {
    FirstMissSpec(ptrs);
  }

  /** What a write makes of a state. */
  ghost predicate WriteOutcome(d: Drive, d': Drive, start: nat, data: seq<Sector>)
    requires Pooled(d)
  {
    if WriteSurvives(d, start, |data|) then Sound(d') && View(d') == Overlay(View(d), start, data)
    else !DirtyCached(d')
  }

  lemma AllStored(v: seq<Sector>, now: seq<Sector>, start: nat, data: seq<Sector>)
    requires Stored(v, now, start, data, 0, |data|)
    ensures now == Overlay(v, start, data)
  {
  }

  lemma AllHitsWritten(d: Drive, d': Drive, start: nat, data: seq<Sector>, ptrs: seq<int>, last: nat)
    requires Asked(d, start, data, ptrs, |data|, last) && HitsWritten(d, d', start, data, 0, |data|)
    ensures WriteOutcome(d, d', start, data)
  {
    AllStored(View(d), View(d'), start, data);
  }

  lemma OuterReady(d: Drive, d1: Drive, start: nat, data: seq<Sector>, ptrs: seq<int>, first: nat, last: nat)
    requires Asked(d, start, data, ptrs, first, last) && first < |data|
    requires Sound(d1) && d1.(cells := d.cells, dirty := d.dirty) == d
    ensures first <= last < |data| && HitsWritable(d1, start, ptrs, last + 1, |data|, data)
  {
    RequestGoes(d, start, |data|);
    forall k | last + 1 <= k < |data|
      ensures ptrs[k] != -1 && start + k in d1.cache && d1.cache[start + k] == ptrs[k]
    {
      HitBehind(d.cache, start, |data|, ptrs, last, k);
    }
  }

  /** What comes behind the last miss is a hit. */
  lemma HitBehind(cache: map<nat, nat>, start: nat, n: nat, ptrs: seq<int>, last: nat, k: nat)
    requires ptrs == Pointers(cache, start, n) && last == LastMiss(ptrs) && last < k < n
    ensures ptrs[k] != -1 && start + k in cache && cache[start + k] == ptrs[k]
  {
    LastMissSpec(ptrs);
  }

  /** The hits around the span have been written. */
  ghost predicate OuterWritten(d: Drive, d1: Drive, d2: Drive, start: nat, data: seq<Sector>, first: nat, last: nat) {
    HitsWritten(d, d1, start, data, 0, first) && HitsWritten(d1, d2, start, data, last + 1, |data|)
  }

  lemma GoingSame(d: Drive, d': Drive, start: nat, ptrs: seq<int>, k: nat, last: nat)
    requires Going(d, start, ptrs, k, last) && HitsAhead(d, start, ptrs, k, last)
    requires Pooled(d') && ReleaseOk(d') && d'.cache == d.cache && |d'.raw| == |d.raw|
    ensures Going(d', start, ptrs, k, last) && HitsAhead(d', start, ptrs, k, last)
  {
  }

  lemma SpanReady(d: Drive, d1: Drive, d2: Drive, start: nat, data: seq<Sector>, ptrs: seq<int>, first: nat, last: nat)
    requires Asked(d, start, data, ptrs, first, last) && first < |data|
    requires OuterWritten(d, d1, d2, start, data, first, last)
    ensures first <= last && Sound(d2) && Going(d2, start, ptrs, first, last) && HitsAhead(d2, start, ptrs, first, last)
  {
    RequestGoes(d, start, |data|);
    GoingSame(d, d2, start, ptrs, first, last);
  }

  lemma HitsPlan(d: Drive, d': Drive, start: nat, data: seq<Sector>, from: nat, to: nat)
    requires HitsWritten(d, d', start, data, from, to)
    ensures PlanOf(d') == PlanOf(d).(dirty := DirtySectors(d.dirty) + Span(start + from, start + to))
  {
  }

  lemma SpanPlan(d: Drive, d1: Drive, d2: Drive, start: nat, data: seq<Sector>, first: nat, last: nat)
    requires OuterWritten(d, d1, d2, start, data, first, last) && first <= last < |data|
    ensures PlanOf(d2) == PlanOf(d).(dirty := DirtySectors(d.dirty) + OuterSectors(start, |data|, first, last))
  {
    HitsPlan(d, d1, start, data, 0, first);
    HitsPlan(d1, d2, start, data, last + 1, |data|);
    PlansJoin(PlanOf(d), start, |data|, first, last);
  }

  lemma PlansJoin(p: Plan, start: nat, n: nat, first: nat, last: nat)
    requires first <= last < n
    ensures (p.dirty + Span(start + 0, start + first)) + Span(start + (last + 1), start + n) ==
            p.dirty + OuterSectors(start, n, first, last)
  {
    SpansJoin(start, n, first, last);
  }

  lemma WriteJoined(d: Drive, d1: Drive, d2: Drive, d3: Drive, start: nat, data: seq<Sector>, ptrs: seq<int>,
                    first: nat, last: nat)
    requires Asked(d, start, data, ptrs, first, last) && first <= last < |data|
    requires OuterWritten(d, d1, d2, start, data, first, last) && SpanWritten(d2, d3, start, ptrs, first, last, data)
    ensures WriteOutcome(d, d3, start, data)
  {
    SpanPlan(d, d1, d2, start, data, first, last);
    if WriteSurvives(d, start, |data|) {
      StoredJoin(View(d), View(d1), View(d2), View(d3), start, data, first, last);
    }
  }

  lemma SpansJoin(start: nat, n: nat, first: nat, last: nat)
    requires first <= last < n
    ensures Span(start + 0, start + first) + Span(start + (last + 1), start + n) == OuterSectors(start, n, first, last)
  {
  }

  /** A read's turn leaves what a reader sees. */
  lemma TurnReads(d: Drive, s: nat, ptr: int, bytes: Sector, cell: nat)
    requires Sound(d) && -1 <= ptr < |d.cells| && s < |d.raw| && cell < |d.cells|
    requires ptr == -1 ==> s !in d.cache && FreeFor(d, cell) && bytes == d.raw[s]
    ensures var d' := Turn(d, s, ptr, bytes, cell, false); Sound(d') && View(d') == View(d) && d'.raw == d.raw
  {
    if ptr == -1 { TurnSound(d, s, ptr, bytes, cell, false); }
  }

  /** The first and the last miss so far, or `n` while there is none. */
  ghost predicate MissesFound(ptrs: seq<int>, n: nat, first: nat, last: nat) {
    && first == (if FirstMiss(ptrs) < |ptrs| then FirstMiss(ptrs) else n)
    && last == (if LastMiss(ptrs) < |ptrs| then LastMiss(ptrs) else n)
  }

  lemma PointersNext(cache: map<nat, nat>, start: nat, k: nat)
    ensures Pointers(cache, start, k + 1) ==
            Pointers(cache, start, k) + [if start + k in cache then cache[start + k] as int else -1]
  {
  }

  /** One more sector looked up. */
  lemma MissesFoundNext(before: seq<int>, ptrs: seq<int>, n: nat)
    requires |before| < n && |ptrs| == |before| + 1 && ptrs[..|before|] == before
    ensures forall first: nat, last: nat :: MissesFound(before, n, first, last) ==>
              MissesFound(ptrs, n,
                if first == n && ptrs[|before|] == -1 then |before| else first,
                if ptrs[|before|] == -1 then |before| else last) == true
  {
    MissesSoFar(before, ptrs);
  }

  lemma MissesSoFar(before: seq<int>, ptrs: seq<int>)
    requires |ptrs| == |before| + 1 && ptrs[..|before|] == before
    ensures var k := |before|;
            && FirstMiss(ptrs) == (if FirstMiss(before) < k || ptrs[k] == -1 then FirstMiss(before) else k + 1)
            && LastMiss(ptrs) ==
                 if ptrs[k] == -1 then k else if LastMiss(before) < k then LastMiss(before) else k + 1
  {
    assert forall j :: 0 <= j < |before| ==> ptrs[j] == before[j];
    FirstMissSpec(before);
    FirstMissSpec(ptrs);
    LastMissSpec(before);
    LastMissSpec(ptrs);
  }
}
