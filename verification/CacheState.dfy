/** The states of a drive with its sector cache, and what each step of a request makes of them. */
module CacheState {
  import opened Volume
  import opened ReleaseList

  const MAX_CACHE_SECTORS := 32

  /** A dirty sector and the cell of its buffer. */
  datatype SecKeyCacheValue = SecKeyCacheValue(sector: nat, cell: nat)

  /** `raw` is the device; a cached sector's buffer is a cell of the pool. */
  datatype Drive = Drive(raw: seq<Sector>, cells: seq<Sector>, cache: map<nat, nat>, dirty: seq<SecKeyCacheValue>,
                         release: seq<Ranked>, built: bool)

  function DirtySectors(dirty: seq<SecKeyCacheValue>): set<nat> {
    set i | 0 <= i < |dirty| :: dirty[i].sector
  }

  function InsertDirty(dirty: seq<SecKeyCacheValue>, v: SecKeyCacheValue): seq<SecKeyCacheValue> {
    if v.sector in DirtySectors(dirty) then dirty else dirty + [v]
  }

  lemma InsertDirtySpec(dirty: seq<SecKeyCacheValue>, v: SecKeyCacheValue)
    ensures DirtySectors(InsertDirty(dirty, v)) == DirtySectors(dirty) + {v.sector}
  {
    var now := InsertDirty(dirty, v);
    if v.sector !in DirtySectors(dirty) {
      assert now[|dirty|] == v;
      forall s | s in DirtySectors(dirty) ensures s in DirtySectors(now) {
        var i :| 0 <= i < |dirty| && dirty[i].sector == s;
        assert now[i].sector == s;
      }
    }
  }

  // ---------------------------------------------------------------- what holds of a state

  ghost predicate OwnCells(cache: map<nat, nat>, s: nat, t: nat) {
    s in cache && t in cache && s != t ==> cache[s] != cache[t]
  }

  ghost predicate InjectiveCells(cache: map<nat, nat>) {
    forall s: nat, t: nat :: OwnCells(cache, s, t)
  }

  /** Every cached sector has a buffer of its own. */
  ghost predicate Pooled(d: Drive) {
    && |d.cells| == MAX_CACHE_SECTORS && |d.cache| <= MAX_CACHE_SECTORS && InjectiveCells(d.cache)
    && (forall s :: s in d.cache ==> s < |d.raw| && d.cache[s] < |d.cells|)
  }

  /** The dirty list names cached sectors, once, each with its buffer. */
  ghost predicate DirtyCached(d: Drive) {
    && (forall i :: 0 <= i < |d.dirty| ==>
          d.dirty[i].sector in d.cache && d.dirty[i].cell == d.cache[d.dirty[i].sector])
    && (forall i, j :: 0 <= i < j < |d.dirty| ==> d.dirty[i].sector != d.dirty[j].sector)
  }

  /** Only sectors on the dirty list may differ from the device. */
  ghost predicate CleanEqualsDisk(d: Drive) requires Pooled(d) {
    forall s :: s in d.cache && s !in DirtySectors(d.dirty) ==> d.cells[d.cache[s]] == d.raw[s]
  }

  ghost predicate ReleaseOk(d: Drive) {
    && |d.release| <= MAX_RELEASE_LIST && Ascending(d.release) && NoRepeat(d.release)
    && forall i :: 0 <= i < |d.release| ==> d.release[i].sector in d.cache
  }

  ghost predicate Sound(d: Drive) {
    Pooled(d) && DirtyCached(d) && CleanEqualsDisk(d) && ReleaseOk(d)
  }

  /** What a reader sees: the cached buffer if there is one, else the device's sector. */
  ghost function View(d: Drive): (v: seq<Sector>)
    requires Pooled(d)
    ensures |v| == |d.raw|
  {
    seq(|d.raw|, s requires 0 <= s < |d.raw| => if s in d.cache then d.cells[d.cache[s]] else d.raw[s])
  }

  // ---------------------------------------------------------------- buffers are pooled

  ghost function Below(n: nat): (r: set<nat>)
    ensures |r| == n && forall c :: c in r <==> 0 <= c < n
  {
    if n == 0 then {} else Below(n - 1) + {n - 1}
  }

  lemma {:induction false} SubsetSize(a: set<nat>, b: set<nat>)
    requires a <= b
    ensures |a| <= |b| && (|a| == |b| ==> a == b)
  {
    if a != {} {
      var x :| x in a;
      SubsetSize(a - {x}, b - {x});
    }
  }

  lemma {:induction false} ValuesBound(m: map<nat, nat>)
    ensures |m.Values| <= |m| && (InjectiveCells(m) ==> |m.Values| == |m|)
  {
    if m == map[] {
      assert m.Values == {};
    } else {
      var k :| k in m;
      var rest := m - {k};
      ValuesBound(rest);
      if InjectiveCells(m) {
        forall s: nat, t: nat ensures OwnCells(rest, s, t) { assert OwnCells(m, s, t); }
        forall s | s in rest ensures rest[s] != m[k] { assert OwnCells(m, s, k); }
      }
      assert m.Values == rest.Values + {m[k]} by {
        forall v | v in m.Values ensures v in rest.Values + {m[k]} {
          var j :| j in m && m[j] == v;
          if j != k { assert j in rest && rest[j] == v; }
        }
      }
      assert |rest| == |m| - 1 by { assert m.Keys == rest.Keys + {k}; }
    }
  }

  /** Some cell is free while fewer sectors are cached than there are cells. */
  lemma FreeCellExists(cache: map<nat, nat>, n: nat)
    requires |cache| < n
    ensures exists c :: 0 <= c < n && c !in cache.Values
  {
    ValuesBound(cache);
    if Below(n) <= cache.Values {
      SubsetSize(Below(n), cache.Values);
    }
    var c :| c in Below(n) && c !in cache.Values;
  }

  /** In a full cache the only free cell after an eviction is that of the evicted sector. */
  lemma FreedCellReused(d: Drive, t: nat, cell: nat)
    requires Pooled(d) && |d.cache| == MAX_CACHE_SECTORS && t in d.cache
    requires cell < |d.cells| && cell !in (d.cache - {t}).Values
    ensures cell == d.cache[t]
  {
    ValuesBound(d.cache);
    SubsetSize(d.cache.Values, Below(MAX_CACHE_SECTORS));
    assert cell in Below(MAX_CACHE_SECTORS);
    forall s | s in d.cache && s != t ensures d.cache[s] in (d.cache - {t}).Values {
      assert s in d.cache - {t} && (d.cache - {t})[s] == d.cache[s];
    }
  }

  lemma NotInValues(cache: map<nat, nat>, cell: nat)
    requires cell !in cache.Values
    ensures forall t :: t in cache ==> cache[t] != cell
  {
    assert forall t :: t in cache ==> cache[t] in cache.Values;
  }

  // ---------------------------------------------------------------- the steps

  /** A sector put in the cache, in a buffer that was free. */
  function Added(d: Drive, s: nat, cell: nat, bytes: Sector): Drive
    requires cell < |d.cells|
  {
    d.(cells := d.cells[cell := bytes], cache := d.cache[s := cell])
  }

  function Dirtied(d: Drive, s: nat, cell: nat): Drive {
    d.(dirty := InsertDirty(d.dirty, SecKeyCacheValue(s, cell)))
  }

  /** A write through the pointer of a hit. */
  function HitWritten(d: Drive, s: nat, cell: nat, bytes: Sector): Drive
    requires cell < |d.cells|
  {
    Dirtied(d.(cells := d.cells[cell := bytes]), s, cell)
  }

  function Evicted(d: Drive, t: nat): Drive { d.(cache := d.cache - {t}) }

  function Victims(d: Drive): seq<Ranked> { NextVictim(d.release, DirtySectors(d.dirty)) }

  /** The first clean sector of the release list makes room, if the list is built and has one. */
  function Replaced(d: Drive, s: nat, cell: nat, bytes: Sector): Drive
    requires cell < |d.cells|
  {
    if !d.built then d
    else if Victims(d) == [] then d.(release := [], built := false)
    else
      var v := Victims(d);
      Added(Evicted(d, v[0].sector), s, cell, bytes).(release := v[1..], built := v[1..] != [])
  }

  function Full(d: Drive): bool { |d.cache| >= MAX_CACHE_SECTORS }

  /** A buffer the step for the uncached sector `s` may take. */
  ghost predicate FreeFor(d: Drive, cell: nat) {
    && cell < |d.cells|
    && (!Full(d) ==> cell !in d.cache.Values)
    && (Full(d) && d.built && Victims(d) != [] ==> cell !in (d.cache - {Victims(d)[0].sector}).Values)
  }

  lemma AddedPooled(d: Drive, s: nat, cell: nat, bytes: Sector)
    requires Pooled(d) && |d.cache| < MAX_CACHE_SECTORS && s !in d.cache && s < |d.raw|
    requires cell < |d.cells| && cell !in d.cache.Values
    ensures Pooled(Added(d, s, cell, bytes)) && |Added(d, s, cell, bytes).cache| == |d.cache| + 1
  {
    var d' := Added(d, s, cell, bytes);
    NotInValues(d.cache, cell);
    forall a: nat, b: nat ensures OwnCells(d'.cache, a, b) { assert OwnCells(d.cache, a, b); }
    assert d'.cache.Keys == d.cache.Keys + {s};
  }

  lemma AddedView(d: Drive, s: nat, cell: nat, bytes: Sector)
    requires Pooled(d) && cell < |d.cells| && Pooled(Added(d, s, cell, bytes)) && s !in d.cache && s < |d.raw|
    requires forall t :: t in d.cache ==> d.cache[t] != cell
    ensures View(Added(d, s, cell, bytes)) == View(d)[s := bytes]
    ensures CleanEqualsDisk(d) && bytes == d.raw[s] ==> CleanEqualsDisk(Added(d, s, cell, bytes))
  {
  }

  lemma AddedSound(d: Drive, s: nat, cell: nat, bytes: Sector)
    requires Pooled(d) && |d.cache| < MAX_CACHE_SECTORS && s !in d.cache && s < |d.raw|
    requires cell < |d.cells| && cell !in d.cache.Values
    ensures var d' := Added(d, s, cell, bytes);
            && Pooled(d') && |d'.cache| == |d.cache| + 1 && View(d') == View(d)[s := bytes]
            && (ReleaseOk(d) ==> ReleaseOk(d')) && (DirtyCached(d) ==> DirtyCached(d'))
            && (CleanEqualsDisk(d) && bytes == d.raw[s] ==> CleanEqualsDisk(d'))
  {
    AddedPooled(d, s, cell, bytes);
    NotInValues(d.cache, cell);
    AddedView(d, s, cell, bytes);
    AddedLists(d, s, cell, bytes);
  }

  lemma AddedLists(d: Drive, s: nat, cell: nat, bytes: Sector)
    requires s !in d.cache && cell < |d.cells|
    ensures ReleaseOk(d) ==> ReleaseOk(Added(d, s, cell, bytes))
    ensures DirtyCached(d) ==> DirtyCached(Added(d, s, cell, bytes))
  {
  }

  lemma DirtiedSound(d: Drive, s: nat, cell: nat)
    requires Pooled(d) && DirtyCached(d) && s in d.cache && d.cache[s] == cell
    requires forall t :: t in d.cache && t !in DirtySectors(d.dirty) + {s} ==> d.cells[d.cache[t]] == d.raw[t]
    ensures var d' := Dirtied(d, s, cell); DirtyCached(d') && CleanEqualsDisk(d')
  {
    InsertDirtySpec(d.dirty, SecKeyCacheValue(s, cell));
    if s !in DirtySectors(d.dirty) {
      forall i | 0 <= i < |d.dirty| ensures d.dirty[i].sector != s {
        assert d.dirty[i].sector in DirtySectors(d.dirty);
      }
    }
  }

  /** A write through a pointer that is still right. */
  lemma HitWrittenSound(d: Drive, s: nat, cell: nat, bytes: Sector)
    requires Sound(d) && s in d.cache && d.cache[s] == cell
    ensures var d' := HitWritten(d, s, cell, bytes); Sound(d') && View(d') == View(d)[s := bytes]
  {
    forall t | t in d.cache && t != s ensures d.cache[t] != cell { assert OwnCells(d.cache, s, t); }
    DirtiedSound(d.(cells := d.cells[cell := bytes]), s, cell);
  }

  /** A write miss put in the cache and on the dirty list. */
  lemma AddedDirtySound(d: Drive, s: nat, cell: nat, bytes: Sector)
    requires Sound(d) && !Full(d) && s !in d.cache && s < |d.raw| && cell < |d.cells| && cell !in d.cache.Values
    ensures var d' := Dirtied(Added(d, s, cell, bytes), s, cell); Sound(d') && View(d') == View(d)[s := bytes]
  {
    AddedSound(d, s, cell, bytes);
    NotInValues(d.cache, cell);
    DirtiedSound(Added(d, s, cell, bytes), s, cell);
  }

  lemma EvictedSound(d: Drive, t: nat)
    requires Pooled(d) && t in d.cache
    ensures var d' := Evicted(d, t); Pooled(d') && |d'.cache| == |d.cache| - 1
    ensures t !in DirtySectors(d.dirty) && DirtyCached(d) && CleanEqualsDisk(d) ==>
              var d' := Evicted(d, t); DirtyCached(d') && CleanEqualsDisk(d') && View(d') == View(d)
  {
    var d' := Evicted(d, t);
    forall a: nat, b: nat ensures OwnCells(d'.cache, a, b) { assert OwnCells(d.cache, a, b); }
    assert d.cache.Keys == d'.cache.Keys + {t};
    if t !in DirtySectors(d.dirty) {
      forall i | 0 <= i < |d.dirty| ensures d.dirty[i].sector != t {
        assert d.dirty[i].sector in DirtySectors(d.dirty);
      }
    }
  }

  /** The victim and the rest of the list behind it. */
  lemma VictimsOk(d: Drive)
    requires ReleaseOk(d) && Victims(d) != []
    ensures var v := Victims(d);
            && v[0].sector in d.cache && v[0].sector !in DirtySectors(d.dirty) && !Releasable(v[1..], v[0].sector)
            && |v[1..]| <= MAX_RELEASE_LIST && Ascending(v[1..]) && NoRepeat(v[1..])
            && (forall i :: 0 <= i < |v[1..]| ==> v[1..][i].sector in d.cache && v[1..][i].sector != v[0].sector)
  {
    var k := NextVictimSpec(d.release, DirtySectors(d.dirty));
  }

  /** An eviction keeps the pool and the list, and of a sound state all else and what a reader sees. */
  lemma ReplacedSound(d: Drive, s: nat, cell: nat, bytes: Sector)
    requires Pooled(d) && ReleaseOk(d) && Full(d) && s !in d.cache && s < |d.raw| && FreeFor(d, cell)
    ensures var d' := Replaced(d, s, cell, bytes); Pooled(d') && ReleaseOk(d') && Full(d')
    ensures Sound(d) && bytes == d.raw[s] ==>
              var d' := Replaced(d, s, cell, bytes); Sound(d') && View(d') == View(d)
  {
    if d.built && Victims(d) != [] {
      VictimsOk(d);
      EvictedSound(d, Victims(d)[0].sector);
      AddedSound(Evicted(d, Victims(d)[0].sector), s, cell, bytes);
    }
  }

  // ---------------------------------------------------------------- the turns of a request

  /**
   The turn of sector `s` in a request: a hit goes through the pointer taken before the request began, a miss into a
   free buffer, or through to the device and into the buffer of an evicted sector.
   */
  function Turn(d: Drive, s: nat, ptr: int, bytes: Sector, cell: nat, writes: bool): Drive
    requires -1 <= ptr < |d.cells| && cell < |d.cells| && s < |d.raw|
  {
    if ptr != -1 then
      if writes then HitWritten(d, s, ptr, bytes) else d
    else if Full(d) then
      Replaced(if writes then d.(raw := d.raw[s := bytes]) else d, s, cell, bytes)
    else
      var d' := Added(d, s, cell, bytes);
      if writes then Dirtied(d', s, cell) else d'
  }

  /** The turn of a sector whose pointer is right, or that misses and is not cached. */
  ghost predicate Due(d: Drive, s: nat, ptr: int, cell: nat) {
    && s < |d.raw|
    && if ptr != -1 then s in d.cache && d.cache[s] == ptr && cell < |d.cells| else s !in d.cache && FreeFor(d, cell)
  }

  lemma RawWritten(d: Drive, s: nat, bytes: Sector)
    requires Sound(d) && s !in d.cache && s < |d.raw|
    ensures var d' := d.(raw := d.raw[s := bytes]); Sound(d') && View(d') == View(d)[s := bytes]
  {
  }

  lemma TurnSound(d: Drive, s: nat, ptr: int, bytes: Sector, cell: nat, writes: bool)
    requires Sound(d) && Due(d, s, ptr, cell) && -1 <= ptr && (!writes && ptr == -1 ==> bytes == d.raw[s])
    ensures var d' := Turn(d, s, ptr, bytes, cell, writes);
            Sound(d') && View(d') == if writes then View(d)[s := bytes] else View(d)
  {
    if ptr != -1 {
      HitWrittenSound(d, s, ptr, bytes);
    } else if Full(d) {
      RawWritten(d, s, bytes);
      ReplacedSound(if writes then d.(raw := d.raw[s := bytes]) else d, s, cell, bytes);
    } else {
      AddedSound(d, s, cell, bytes);
      if writes { AddedDirtySound(d, s, cell, bytes); } else { assert View(d)[s := bytes] == View(d); }
    }
  }

  /** What decides which sectors a request evicts: how many are cached, the release list, and which are dirty. */
  datatype Plan = Plan(count: nat, built: bool, release: seq<Ranked>, dirty: set<nat>)

  function PlanOf(d: Drive): Plan {
    Plan(|d.cache|, d.built, d.release, DirtySectors(d.dirty))
  }

  function NextPlan(p: Plan, s: nat, hit: bool, writes: bool): Plan {
    if hit then
      if writes then p.(dirty := p.dirty + {s}) else p
    else if p.count < MAX_CACHE_SECTORS then
      p.(count := p.count + 1, dirty := if writes then p.dirty + {s} else p.dirty)
    else if !p.built then p
    else
      var v := NextVictim(p.release, p.dirty);
      if v == [] then p.(release := [], built := false) else p.(release := v[1..], built := v[1..] != [])
  }

  lemma PlanTurn(d: Drive, s: nat, ptr: int, bytes: Sector, cell: nat, writes: bool)
    requires Pooled(d) && ReleaseOk(d) && -1 <= ptr < |d.cells| && cell < |d.cells| && s < |d.raw|
    requires ptr == -1 ==> s !in d.cache && FreeFor(d, cell)
    ensures PlanOf(Turn(d, s, ptr, bytes, cell, writes)) == NextPlan(PlanOf(d), s, ptr != -1, writes)
  {
    if ptr != -1 {
      InsertDirtySpec(d.dirty, SecKeyCacheValue(s, ptr));
    } else if Full(d) {
      var d1 := if writes then d.(raw := d.raw[s := bytes]) else d;
      ReplacedSound(d1, s, cell, bytes);
    } else {
      AddedPooled(d, s, cell, bytes);
      InsertDirtySpec(d.dirty, SecKeyCacheValue(s, cell));
    }
  }

  /** The turn of `s` evicts no sector behind it up to `end`. */
  predicate Spares(p: Plan, s: nat, hit: bool, end: nat) {
    if hit || p.count < MAX_CACHE_SECTORS || !p.built then true
    else
      var v := NextVictim(p.release, p.dirty);
      v == [] || !(s < v[0].sector <= end)
  }

  /** The request, followed turn by turn, evicts no hit it has still to use. */
  predicate Survives(p: Plan, start: nat, ptrs: seq<int>, k: nat, last: nat, writes: bool)
    decreases last + 1 - k
  {
    k <= last && k < |ptrs| ==>
      && Spares(p, start + k, ptrs[k] != -1, start + last)
      && Survives(NextPlan(p, start + k, ptrs[k] != -1, writes), start, ptrs, k + 1, last, writes)
  }

  /** From index `k` on misses are still not cached, and hits are where they were. */
  ghost predicate MissesAhead(d: Drive, start: nat, ptrs: seq<int>, k: nat, last: nat) {
    forall j :: k <= j <= last && j < |ptrs| && ptrs[j] == -1 ==> start + j !in d.cache
  }

  ghost predicate HitsAhead(d: Drive, start: nat, ptrs: seq<int>, k: nat, last: nat) {
    forall j :: k <= j <= last && j < |ptrs| && ptrs[j] != -1 ==>
      start + j in d.cache && d.cache[start + j] == ptrs[j]
  }

  ghost predicate InRange(d: Drive, start: nat, ptrs: seq<int>, last: nat) {
    last < |ptrs| && start + |ptrs| <= |d.raw| && forall j :: 0 <= j < |ptrs| ==> -1 <= ptrs[j] < |d.cells|
  }

  /** The state before turn `k`, whatever has become of the hits. */
  ghost predicate Going(d: Drive, start: nat, ptrs: seq<int>, k: nat, last: nat) {
    && Pooled(d) && ReleaseOk(d) && InRange(d, start, ptrs, last) && k <= last + 1
    && MissesAhead(d, start, ptrs, k, last)
  }

  /** A turn takes sectors out of the cache only by eviction, and puts none in but its own. */
  lemma TurnCaches(d: Drive, s: nat, ptr: int, bytes: Sector, cell: nat, writes: bool)
    requires Pooled(d) && ReleaseOk(d) && -1 <= ptr < |d.cells| && s < |d.raw| && cell < |d.cells|
    requires ptr == -1 ==> s !in d.cache && FreeFor(d, cell)
    ensures var d' := Turn(d, s, ptr, bytes, cell, writes);
            && Pooled(d') && ReleaseOk(d') && |d'.raw| == |d.raw|
            && (forall t :: t in d'.cache && t != s ==> t in d.cache && d'.cache[t] == d.cache[t])
            && (ptr != -1 ==> d'.cache == d.cache)
            && DirtySectors(d.dirty) <= DirtySectors(d'.dirty)
            && (writes && ptr != -1 ==> s in DirtySectors(d'.dirty))
  {
    if ptr != -1 {
      InsertDirtySpec(d.dirty, SecKeyCacheValue(s, ptr));
    } else if Full(d) {
      ReplacedSound(if writes then d.(raw := d.raw[s := bytes]) else d, s, cell, bytes);
    } else {
      AddedSound(d, s, cell, bytes);
      InsertDirtySpec(d.dirty, SecKeyCacheValue(s, cell));
    }
  }

  lemma TurnSpares(d: Drive, s: nat, ptr: int, bytes: Sector, cell: nat, writes: bool, end: nat, t: nat)
    requires -1 <= ptr < |d.cells| && s < |d.raw| && cell < |d.cells| && s < t <= end && t in d.cache
    requires Spares(PlanOf(d), s, ptr != -1, end)
    ensures t in Turn(d, s, ptr, bytes, cell, writes).cache
  {
  }

  lemma TurnGoes(d: Drive, start: nat, ptrs: seq<int>, k: nat, last: nat, bytes: Sector, cell: nat, writes: bool)
    requires Going(d, start, ptrs, k, last) == true && k <= last
    requires cell < |d.cells| && (ptrs[k] == -1 ==> FreeFor(d, cell))
    ensures Going(Turn(d, start + k, ptrs[k], bytes, cell, writes), start, ptrs, k + 1, last) == true
  {
    TurnCaches(d, start + k, ptrs[k], bytes, cell, writes);
  }

  lemma TurnKeepsHits(d: Drive, start: nat, ptrs: seq<int>, k: nat, last: nat, bytes: Sector, cell: nat, writes: bool)
    requires Going(d, start, ptrs, k, last) && k <= last && cell < |d.cells| && (ptrs[k] == -1 ==> FreeFor(d, cell))
    requires HitsAhead(d, start, ptrs, k, last) && Spares(PlanOf(d), start + k, ptrs[k] != -1, start + last)
    ensures HitsAhead(Turn(d, start + k, ptrs[k], bytes, cell, writes), start, ptrs, k + 1, last)
  {
    TurnCaches(d, start + k, ptrs[k], bytes, cell, writes);
    forall j | k + 1 <= j <= last && ptrs[j] != -1
      ensures start + j in Turn(d, start + k, ptrs[k], bytes, cell, writes).cache
    {
      TurnSpares(d, start + k, ptrs[k], bytes, cell, writes, start + last, start + j);
    }
  }

  /** A pending hit at index `j` that a turn does not spare loses its place: its buffer goes to the turn's sector. */
  lemma TurnSteals(d: Drive, start: nat, ptrs: seq<int>, k: nat, last: nat, bytes: Sector, cell: nat, writes: bool)
    returns (j: nat)
    requires Going(d, start, ptrs, k, last) && k <= last && cell < |d.cells| && (ptrs[k] == -1 ==> FreeFor(d, cell))
    requires HitsAhead(d, start, ptrs, k, last) && !Spares(PlanOf(d), start + k, ptrs[k] != -1, start + last)
    ensures k < j <= last && ptrs[k] == -1 && ptrs[j] != -1
    ensures var d' := Turn(d, start + k, ptrs[k], bytes, cell, writes);
            start + j !in d'.cache && start + k in d'.cache && d'.cache[start + k] == ptrs[j]
            && !Releasable(d'.release, start + k)
  {
    var v := Victims(d);
    VictimsOk(d);
    j := v[0].sector - start;
    assert MissesAhead(d, start, ptrs, k, last);
    FreedCellReused(d, v[0].sector, cell);
  }

  // ---------------------------------------------------------------- whole requests

  /** The pointers a request collects: the buffer of a hit, -1 for a miss. */
  function Pointers(cache: map<nat, nat>, start: nat, n: nat): (ptrs: seq<int>)
    ensures |ptrs| == n
  {
    seq(n, k requires 0 <= k < n => if start + k in cache then cache[start + k] as int else -1)
  }

  /** The first miss, or the length for none. */
  function FirstMiss(ptrs: seq<int>): (k: nat)
    ensures k <= |ptrs|
  {
    if ptrs == [] || ptrs[0] == -1 then 0 else 1 + FirstMiss(ptrs[1..])
  }

  /** The last miss, or the length for none. */
  function LastMiss(ptrs: seq<int>): (k: nat)
    ensures k <= |ptrs|
  {
    if ptrs == [] then 0
    else
      var n := |ptrs| - 1;
      var k := LastMiss(ptrs[..n]);
      if ptrs[n] == -1 then n else if k == n then n + 1 else k
  }

  lemma {:induction false} FirstMissSpec(ptrs: seq<int>)
    ensures FirstMiss(ptrs) < |ptrs| ==> ptrs[FirstMiss(ptrs)] == -1
    ensures forall j :: 0 <= j < FirstMiss(ptrs) ==> ptrs[j] != -1
  {
    if ptrs != [] && ptrs[0] != -1 { FirstMissSpec(ptrs[1..]); }
  }

  lemma {:induction false} LastMissSpec(ptrs: seq<int>)
    ensures LastMiss(ptrs) < |ptrs| ==> ptrs[LastMiss(ptrs)] == -1
    ensures forall j :: 0 <= j < |ptrs| && (LastMiss(ptrs) < j || LastMiss(ptrs) == |ptrs|) ==> ptrs[j] != -1
  {
    if ptrs != [] { LastMissSpec(ptrs[..|ptrs| - 1]); }
  }

  function Span(a: nat, b: nat): (r: set<nat>)
    ensures forall x :: x in r <==> a <= x < b
    decreases b - a
  {
    if a >= b then {} else {a} + Span(a + 1, b)
  }

  /** The sectors of the hits before the first miss and behind the last, which a request uses before all others. */
  function OuterSectors(start: nat, n: nat, first: nat, last: nat): set<nat> {
    Span(start, start + first) + Span(start + last + 1, start + n)
  }

  predicate ReadSurvives(d: Drive, start: nat, n: nat) {
    var ptrs := Pointers(d.cache, start, n);
    Survives(PlanOf(d), start, ptrs, FirstMiss(ptrs), LastMiss(ptrs), false)
  }

  predicate WriteSurvives(d: Drive, start: nat, n: nat) {
    var ptrs := Pointers(d.cache, start, n);
    var first, last := FirstMiss(ptrs), LastMiss(ptrs);
    Survives(PlanOf(d).(dirty := DirtySectors(d.dirty) + OuterSectors(start, n, first, last)), start, ptrs, first, last,
      true)
  }

  lemma PointersRight(d: Drive, start: nat, n: nat)
    requires Pooled(d) && start + n <= |d.raw|
    ensures var ptrs := Pointers(d.cache, start, n);
            && (forall k :: 0 <= k < n ==> -1 <= ptrs[k] < |d.cells|)
            && MissesAhead(d, start, ptrs, 0, n) && HitsAhead(d, start, ptrs, 0, n)
  {
  }

  /** A request with a miss may begin at the first. */
  lemma RequestGoes(d: Drive, start: nat, n: nat)
    requires Pooled(d) && ReleaseOk(d) && start + n <= |d.raw| && FirstMiss(Pointers(d.cache, start, n)) < n
    ensures var ptrs := Pointers(d.cache, start, n);
            var first, last := FirstMiss(ptrs), LastMiss(ptrs);
            first <= last < n && Going(d, start, ptrs, first, last) && HitsAhead(d, start, ptrs, first, last)
  {
    PointersRight(d, start, n);
    FirstMissSpec(Pointers(d.cache, start, n));
    LastMissSpec(Pointers(d.cache, start, n));
  }

  // ---------------------------------------------------------------- flushing and rebuilding

  /** The first of the dirty list, written out. */
  function FirstFlushed(d: Drive): Drive
    requires d.dirty != [] && d.dirty[0].sector < |d.raw| && d.dirty[0].cell < |d.cells|
  {
    d.(raw := d.raw[d.dirty[0].sector := d.cells[d.dirty[0].cell]], dirty := d.dirty[1..])
  }

  lemma FirstFlushedSound(d: Drive)
    requires Sound(d) && d.dirty != []
    ensures d.dirty[0].sector < |d.raw| && d.dirty[0].cell < |d.cells|
    ensures Sound(FirstFlushed(d)) && View(FirstFlushed(d)) == View(d)
  {
    var v, d' := d.dirty[0], FirstFlushed(d);
    forall s | s in DirtySectors(d.dirty) && s != v.sector ensures s in DirtySectors(d'.dirty) {
      var i :| 0 <= i < |d.dirty| && d.dirty[i].sector == s;
      assert d'.dirty[i - 1].sector == s;
    }
    assert DirtyCached(d');
  }

  /** The release list built on what is left of the old one. */
  function Rebuilt(d: Drive, keys: seq<nat>, rank: nat -> real): Drive {
    if !Full(d) || d.built then d
    else
      var now := Built(d.release, DirtySectors(d.dirty), keys, rank);
      d.(release := now, built := |now| == MAX_RELEASE_LIST)
  }

  /** A rebuild goes well unless it lists a sector twice. */
  predicate RebuildsWell(d: Drive, keys: seq<nat>, rank: nat -> real) {
    Full(d) && !d.built ==> NoRepeat(Built(d.release, DirtySectors(d.dirty), keys, rank))
  }

  lemma RebuiltSound(d: Drive, keys: seq<nat>, rank: nat -> real)
    requires Sound(d) && forall i :: 0 <= i < |keys| ==> keys[i] in d.cache
    ensures Sound(Rebuilt(d, keys, rank)) <==> RebuildsWell(d, keys, rank)
    ensures View(Rebuilt(d, keys, rank)) == View(d)
  {
    var d' := Rebuilt(d, keys, rank);
    BuiltSpec(d.release, DirtySectors(d.dirty), keys, rank);
    if Full(d) && !d.built {
      forall i | 0 <= i < |d'.release| ensures d'.release[i].sector in d.cache {
        assert d'.release[i] in d'.release;
        if d'.release[i] in d.release { var j :| 0 <= j < |d.release| && d.release[j] == d'.release[i]; }
      }
    }
  }

  /**
   When a rebuild goes well: if nothing clean that is left on the list is visited again; and while there is room for all
   that is clean, only then.
   */
  lemma RebuildsWellWhen(d: Drive, keys: seq<nat>, rank: nat -> real)
    requires Sound(d) && Full(d) && !d.built && Increasing(keys)
    ensures NoneRevisited(d.release, DirtySectors(d.dirty), keys) ==> RebuildsWell(d, keys, rank)
    ensures |d.release| + CleanCount(DirtySectors(d.dirty), keys) <= MAX_RELEASE_LIST ==>
              (RebuildsWell(d, keys, rank) <==> NoneRevisited(d.release, DirtySectors(d.dirty), keys))
  {
    var dirty := DirtySectors(d.dirty);
    if NoneRevisited(d.release, dirty, keys) { BuiltWhole(d.release, dirty, keys, rank); }
    if |d.release| + CleanCount(dirty, keys) <= MAX_RELEASE_LIST { BuiltRepeats(d.release, dirty, keys, rank); }
  }

  /**
   Exactly when a rebuild goes well.  While there is room for all that is clean, if nothing clean that is left on the
   list is visited again.  Else the list is filled by the first `k` keys, and of what comes behind them only the first
   of the highest rank gets on it, in the last place: no two of the three that are left may be the same sector.
   */
  lemma RebuildsWellExact(d: Drive, keys: seq<nat>, rank: nat -> real) returns (k: nat)
    requires Sound(d) && Full(d) && !d.built && Increasing(keys)
    ensures var dirty := DirtySectors(d.dirty);
            if |d.release| + CleanCount(dirty, keys) <= MAX_RELEASE_LIST then
              RebuildsWell(d, keys, rank) <==> NoneRevisited(d.release, dirty, keys)
            else
              && k <= |keys| && |d.release| + CleanCount(dirty, keys[..k]) == MAX_RELEASE_LIST
              && var full := Built(d.release, dirty, keys[..k], rank);
                 && |full| == MAX_RELEASE_LIST
                 && var t := Top(full[2], dirty, keys[k..], rank).sector;
                    RebuildsWell(d, keys, rank) <==>
                      full[0].sector != full[1].sector && t != full[0].sector && t != full[1].sector
  {
    var dirty := DirtySectors(d.dirty);
    k := 0;
    if |d.release| + CleanCount(dirty, keys) <= MAX_RELEASE_LIST {
      BuiltRepeats(d.release, dirty, keys, rank);
    } else {
      k := FillPoint(MAX_RELEASE_LIST - |d.release|, dirty, keys);
      BuiltRepeatsFull(d.release, dirty, keys, rank, k);
    }
  }

  // ---------------------------------------------------------------- drives on which it goes wrong

  /** A drive of forty equal sectors, of which 32 are cached and clean. */
  lemma CleanDrive(z: Sector, cache: map<nat, nat>, release: seq<Ranked>, built: bool) returns (d: Drive)
    requires |cache| == MAX_CACHE_SECTORS && InjectiveCells(cache)
    requires forall s :: s in cache ==> s < 40 && cache[s] < MAX_CACHE_SECTORS
    requires |release| == 1 && release[0].sector in cache
    ensures Sound(d) && Full(d) && DirtySectors(d.dirty) == {}
    ensures d.cache == cache && d.release == release && d.built == built
  {
    d := Drive(seq(40, _ => z), seq(MAX_CACHE_SECTORS, _ => z), cache, [], release, built);
    assert forall i :: 0 <= i < 40 ==> d.raw[i] == z;
    assert forall i :: 0 <= i < MAX_CACHE_SECTORS ==> d.cells[i] == z;
  }

  lemma InOrder(n: nat) returns (cache: map<nat, nat>)
    ensures |cache| == n && InjectiveCells(cache)
    ensures forall s :: s in cache <==> 0 <= s < n
    ensures forall s :: s in cache ==> cache[s] == s
  {
    cache := map s | s in Below(n) :: s;
    assert cache.Keys == Below(n);
  }

  function GapCell(s: nat): nat {
    if s < 2 then 0 else s - 2
  }

  /** All but sectors 0 and 2. */
  lemma WithGaps(n: nat) returns (cache: map<nat, nat>)
    requires n > 0
    ensures |cache| == n && InjectiveCells(cache)
    ensures forall s :: s in cache <==> s == 1 || 3 <= s < n + 2
    ensures forall s :: s in cache ==> cache[s] == GapCell(s)
  {
    var keys := GapKeys(n);
    cache := map s | s in keys :: GapCell(s);
    assert cache.Keys == keys;
  }

  lemma GapKeys(n: nat) returns (keys: set<nat>)
    requires n > 0
    ensures |keys| == n && forall s :: s in keys <==> s == 1 || 3 <= s < n + 2
  {
    var all := Below(n + 2);
    assert |all - {0}| == n + 1;
    keys := all - {0} - {2};
  }

  /** One sector is left on the list, and a cleanup lists it again. */
  lemma CleanupGoesWrong(z: Sector, r: real, rank: nat -> real) returns (d: Drive)
    ensures Sound(d) && 0 in d.cache && !RebuildsWell(d, [0], rank)
  {
    var cache := InOrder(MAX_CACHE_SECTORS);
    d := CleanDrive(z, cache, [Ranked(0, r)], false);
    var keys: seq<nat> := [0];
    assert keys[..0] == [] && CleanCount({}, keys) == 1;
    assert d.release[0].sector in keys && !NoneRevisited(d.release, {}, keys);
    RebuildsWellWhen(d, keys, rank);
  }

  /** The list is built with sector 1 first; a request for sectors 0 to 2, of which only 1 is cached, evicts it. */
  lemma RequestGoesWrong(z: Sector, r: real) returns (d: Drive)
    ensures Sound(d) && !WriteSurvives(d, 0, 3) && !ReadSurvives(d, 0, 3)
  {
    var cache := WithGaps(MAX_CACHE_SECTORS);
    d := CleanDrive(z, cache, [Ranked(1, r)], true);
    var ptrs := Pointers(d.cache, 0, 3);
    assert ptrs[0] == -1 && ptrs[1] == 0 && ptrs[2] == -1;
    assert Span(0, 0) == {} && Span(3, 3) == {};
    EvictsFirst(PlanOf(d), ptrs);
  }

  lemma EvictsFirst(p: Plan, ptrs: seq<int>)
    requires p.count == MAX_CACHE_SECTORS && p.built && p.dirty == {} && |p.release| == 1 && p.release[0].sector == 1
    requires |ptrs| == 3 && ptrs[0] == -1 && ptrs[2] == -1
    ensures FirstMiss(ptrs) == 0 && LastMiss(ptrs) == 2
    ensures forall writes :: !Survives(p, 0, ptrs, 0, 2, writes)
  {
  }
}
