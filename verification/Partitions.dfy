/**
 The chain of boot records inside the extended partition.  Each record's first entry describes a partition, its second
 leads to the next record, counted from the start of the extended partition.
 */
module Partitions {

  const SI_EXT := 5
  const SI_EMTY := 1
  const DEF_START_SEC := 63

  datatype Record = Record(system: nat, start: nat, size: nat)
  datatype Boot = Boot(first: Record, second: Record)
  datatype ExtPartition = ExtPartition(current: Record, actualStart: nat)

  const EMPTY := Record(0, 0, 0)

  predicate IsEmpty(r: Record) { r.system == 0 || r.size == 0 }

  function EndOf(e: ExtPartition): nat { e.actualStart + e.current.start + e.current.size }

  /** The sectors of the partitions, boot records included, follow one another without gap from `from`, up to `to`. */
  ghost predicate Tiled(list: seq<ExtPartition>, from: nat, to: nat) {
    && (list != [] ==> list[0].actualStart == from && EndOf(list[|list| - 1]) <= to)
    && (forall i :: 0 <= i < |list| - 1 ==> list[i + 1].actualStart == EndOf(list[i]))
    && (forall i :: 0 <= i < |list| ==> list[i].current.start == DEF_START_SEC)
  }

  /** The record after that of partition `i` on disk, as the parser finds it. */
  ghost predicate Linked(disk: map<nat, Boot>, from: nat, list: seq<ExtPartition>, i: nat) {
    && i < |list| && list[i].actualStart in disk
    && disk[list[i].actualStart].first == list[i].current && !IsEmpty(list[i].current)
    && var next := disk[list[i].actualStart].second;
       if i == |list| - 1 then IsEmpty(next) else !IsEmpty(next) && from + next.start == list[i + 1].actualStart
  }

  /** The chain on disk from sector `from` spells the list. */
  ghost predicate Spells(disk: map<nat, Boot>, from: nat, list: seq<ExtPartition>) {
    if list == [] then from in disk && IsEmpty(disk[from].first)
    else list[0].actualStart == from && forall i: nat :: i < |list| ==> Linked(disk, from, list, i)
  }

  /** A chain spells one list at most. */
  lemma {:induction false} SpellsOnce(disk: map<nat, Boot>, from: nat, p: seq<ExtPartition>, q: seq<ExtPartition>,
                                      i: nat)
    requires Spells(disk, from, p) && Spells(disk, from, q) && i < |p|
    ensures i < |q| && p[i] == q[i]
  {
    assert Linked(disk, from, p, i);
    if i == 0 {
      if |q| > 0 { assert Linked(disk, from, q, 0); }
    } else {
      SpellsOnce(disk, from, p, q, i - 1);
      assert Linked(disk, from, p, i - 1) && Linked(disk, from, q, i - 1);
      assert Linked(disk, from, q, i);
    }
  }

  /** Partitions lie inside the extended partition, each behind all before it. */
  lemma {:induction false} Ordered(list: seq<ExtPartition>, from: nat, to: nat, i: nat, j: nat)
    requires Tiled(list, from, to) && i <= j < |list|
    ensures from <= list[i].actualStart && EndOf(list[j]) <= to
    ensures i < j ==> EndOf(list[i]) <= list[j].actualStart
    decreases i + |list| - j
  {
    if i > 0 {
      Ordered(list, from, to, i - 1, j);
      assert list[i - 1 + 1].actualStart == EndOf(list[i - 1]);
    } else if j < |list| - 1 {
      Ordered(list, from, to, i, j + 1);
      assert list[j + 1].actualStart == EndOf(list[j]);
    }
    if i < j { Ascending(list, from, to, i, j); }
  }

  lemma {:induction false} Ascending(list: seq<ExtPartition>, from: nat, to: nat, i: nat, j: nat)
    requires Tiled(list, from, to) && i < j < |list|
    ensures EndOf(list[i]) <= list[j].actualStart
  {
    assert list[j - 1 + 1].actualStart == EndOf(list[j - 1]);
    if i < j - 1 { Ascending(list, from, to, i, j - 1); }
  }

  /** The disk with a new record at the end of the list, and the last one leading to it. */
  function Appended(disk: map<nat, Boot>, from: nat, list: seq<ExtPartition>, e: ExtPartition, size: nat)
    : map<nat, Boot>
    requires list != [] ==> list[|list| - 1].actualStart in disk && from <= e.actualStart
  {
    var d := disk[e.actualStart := Boot(e.current, EMPTY)];
    if list == [] then d
    else
      var last := list[|list| - 1].actualStart;
      d[last := d[last].(second := Record(SI_EXT, e.actualStart - from, size))]
  }

  lemma SpellsAppended(disk: map<nat, Boot>, from: nat, to: nat, list: seq<ExtPartition>, e: ExtPartition, size: nat)
    requires Spells(disk, from, list) && Tiled(list, from, to)
    requires e.actualStart == (if list == [] then from else EndOf(list[|list| - 1])) && e.current.system == SI_EMTY
    ensures list != [] ==> list[|list| - 1].actualStart in disk && from <= e.actualStart
    ensures Spells(Appended(disk, from, list, e, size), from, list + [e]) <==>
              e.current.size > 0 && (list == [] || size > 0)
  {
    var n, all := |list|, list + [e];
    if n > 0 {
      assert Linked(disk, from, list, n - 1);
      Ordered(list, from, to, n - 1, n - 1);
    }
    var now := Appended(disk, from, list, e, size);
    forall i: nat | i < n - 1 ensures Linked(now, from, all, i) {
      assert Linked(disk, from, list, i);
      Ordered(list, from, to, i, n - 1);
    }
    if n > 0 {
      assert e.current.size > 0 && size > 0 ==> Linked(now, from, all, n - 1);
      assert size == 0 ==> !Linked(now, from, all, n - 1);
    }
    assert e.current.size > 0 <==> Linked(now, from, all, n);
    if e.current.size > 0 && (list == [] || size > 0) {
      forall i: nat | i < n + 1 ensures Linked(now, from, all, i) {}
    }
  }

  lemma TiledAppended(list: seq<ExtPartition>, from: nat, to: nat, e: ExtPartition)
    requires Tiled(list, from, to) && e.current.start == DEF_START_SEC
    requires e.actualStart == if list == [] then from else EndOf(list[|list| - 1])
    ensures Tiled(list + [e], from, to) <==> EndOf(e) <= to
  {
    var all := list + [e];
    forall i | 0 <= i < |all| - 1 ensures all[i + 1].actualStart == EndOf(all[i]) {
      if i < |list| - 1 { assert list[i + 1].actualStart == EndOf(list[i]); }
    }
  }

  /** The disk with the last record erased, and no record leading to it. */
  function Cut(disk: map<nat, Boot>, list: seq<ExtPartition>): map<nat, Boot>
    requires list != [] && forall i :: 0 <= i < |list| ==> list[i].actualStart in disk
  {
    var n := |list|;
    var d := if n == 1 then disk else disk[list[n - 2].actualStart := disk[list[n - 2].actualStart].(second := EMPTY)];
    d[list[n - 1].actualStart := Boot(EMPTY, EMPTY)]
  }

  lemma SpellsCut(disk: map<nat, Boot>, from: nat, to: nat, list: seq<ExtPartition>)
    requires Spells(disk, from, list) && Tiled(list, from, to) && list != []
    ensures forall i :: 0 <= i < |list| ==> list[i].actualStart in disk
    ensures Spells(Cut(disk, list), from, list[..|list| - 1]) && Tiled(list[..|list| - 1], from, to)
  {
    var n, less := |list|, list[..|list| - 1];
    forall i | 0 <= i < n ensures list[i].actualStart in disk { assert Linked(disk, from, list, i); }
    var now := Cut(disk, list);
    forall i: nat | i < n - 1 ensures Linked(now, from, less, i) {
      assert Linked(disk, from, list, i);
      Ordered(list, from, to, i, n - 1);
      if i < n - 2 { Ordered(list, from, to, i, n - 2); }
    }
    if n > 1 {
      Ordered(list, from, to, n - 2, n - 2);
    }
  }

  datatype PartitionEntry = PartitionEntry(start: nat, size: nat)

  // ---------------------------------------------------------------- what the operations mean

  datatype Op = Create(size: nat) | Delete

  /** The extended partition: whether there is one, where it starts, and its sectors. */
  datatype Extent = Extent(present: bool, start: nat, size: nat)

  /** Where the next partition's boot record goes. */
  function NextStart(start: nat, list: seq<ExtPartition>): nat {
    if list == [] then start else EndOf(list[|list| - 1])
  }

  /** A partition can be created while it fits behind the last, and deleted while there is one. */
  predicate Goes(room: Extent, list: seq<ExtPartition>, op: Op) {
    && room.present
    && match op
       case Create(size) => NextStart(room.start, list) + size <= room.start + room.size
       case Delete => list != []
  }

  /** The list after an operation: creation appends, less the track of its record, and deletion drops the last. */
  function After(room: Extent, list: seq<ExtPartition>, op: Op): seq<ExtPartition> {
    if !Goes(room, list, op) then list
    else
      match op
      case Create(size) =>
        var sectors := (size - DEF_START_SEC) % 0x1_0000_0000;
        list + [ExtPartition(Record(SI_EMTY, DEF_START_SEC, sectors), NextStart(room.start, list))]
      case Delete => list[..|list| - 1]
  }

  function Played(room: Extent, list: seq<ExtPartition>, ops: seq<Op>): seq<ExtPartition> {
    if ops == [] then list
    else After(room, Played(room, list, ops[..|ops| - 1]), ops[|ops| - 1])
  }

  function Deletions(ops: seq<Op>, done: seq<bool>): nat
    requires |ops| == |done|
  {
    if ops == [] then 0
    else
      var n := |ops| - 1;
      Deletions(ops[..n], done[..n]) + if ops[n].Delete? && done[n] then 1 else 0
  }

  /** The partitions offered once `n` have been withdrawn, the last first. */
  function Withdrawn(offered: seq<PartitionEntry>, n: nat): seq<PartitionEntry> {
    if n >= |offered| then [] else offered[..|offered| - n]
  }

  function Offered(offered: seq<PartitionEntry>, op: Op, done: bool): seq<PartitionEntry> {
    if op.Delete? && done then Withdrawn(offered, 1) else offered
  }

  // ---------------------------------------------------------------- the sizes alone

  function Sum(sizes: seq<nat>): nat {
    if sizes == [] then 0 else Sum(sizes[..|sizes| - 1]) + sizes[|sizes| - 1]
  }

  /** The sectors each partition takes, its boot record's track included. */
  ghost function Extents(list: seq<ExtPartition>): seq<nat> {
    seq(|list|, i requires 0 <= i < |list| => list[i].current.start + list[i].current.size)
  }

  /** What a run makes of the sizes: those that still fit are put behind the others, and the last goes first. */
  function Asked(room: Extent, sizes: seq<nat>, ops: seq<Op>): seq<nat> {
    if ops == [] then sizes
    else
      var s := Asked(room, sizes, ops[..|ops| - 1]);
      match ops[|ops| - 1]
      case Create(size) => if room.present && Sum(s) + size <= room.size then s + [size] else s
      case Delete => if room.present && s != [] then s[..|s| - 1] else s
  }

  lemma {:induction false} PlacesAddUp(list: seq<ExtPartition>, from: nat, to: nat, i: nat)
    requires Tiled(list, from, to) && i <= |list|
    ensures i < |list| ==> list[i].actualStart == from + Sum(Extents(list)[..i])
    ensures i > 0 ==> EndOf(list[i - 1]) == from + Sum(Extents(list)[..i])
  {
    if i > 0 {
      PlacesAddUp(list, from, to, i - 1);
      assert Extents(list)[..i][..i - 1] == Extents(list)[..i - 1];
      if i < |list| { assert list[i - 1 + 1].actualStart == EndOf(list[i - 1]); }
    }
  }

  /** The next partition goes behind all that there are. */
  lemma SizesAddUp(list: seq<ExtPartition>, from: nat, to: nat)
    requires Tiled(list, from, to)
    ensures NextStart(from, list) == from + Sum(Extents(list))
  {
    PlacesAddUp(list, from, to, |list|);
    assert Extents(list)[..|list|] == Extents(list);
  }

  /** The sizes decide what goes, and the extents come to them. */
  ghost predicate SizesFollow(room: Extent, was: seq<nat>, ops: seq<Op>, done: seq<bool>, list: seq<ExtPartition>) {
    && |done| <= |ops| && Extents(list) == Asked(room, was, ops[..|done|])
    && forall k :: 0 <= k < |done| ==> Fitted(room, Asked(room, was, ops[..k]), ops[k], done[k])
  }

  ghost predicate Fitted(room: Extent, sizes: seq<nat>, op: Op, done: bool) {
    match op
    case Create(size) => done <==> room.present && Sum(sizes) + size <= room.size
    case Delete => done <==> room.present && sizes != []
  }

  /** Each entry starts a track behind the start of its extent and ends with it. */
  ghost predicate Laid(entries: seq<PartitionEntry>, from: nat, sizes: seq<nat>) {
    && |entries| == |sizes|
    && forall i :: 0 <= i < |sizes| ==>
         && entries[i].start == from + Sum(sizes[..i]) + 63
         && entries[i].start + entries[i].size == from + Sum(sizes[..i]) + sizes[i]
  }

  lemma EntriesLaid(list: seq<ExtPartition>, from: nat, to: nat, entries: seq<PartitionEntry>)
    requires Tiled(list, from, to) && |entries| == |list|
    requires forall i :: 0 <= i < |list| ==>
               entries[i] == PartitionEntry(list[i].actualStart + list[i].current.start, list[i].current.size)
    ensures Laid(entries, from, Extents(list)) == true
  {
    forall i | 0 <= i < |list| ensures list[i].actualStart == from + Sum(Extents(list)[..i]) {
      PlacesAddUp(list, from, to, i);
    }
  }

  lemma SizesOn(room: Extent, was: seq<nat>, ops: seq<Op>, done: seq<bool>, list: seq<ExtPartition>, ok: bool,
                now: seq<ExtPartition>)
    requires SizesFollow(room, was, ops, done, list) && |done| < |ops|
    requires Tiled(list, room.start, room.start + room.size)
    requires ok == Goes(room, list, ops[|done|]) && now == After(room, list, ops[|done|])
    requires ops[|done|].Create? ==> DEF_START_SEC < ops[|done|].size < 0x1_0000_0000
    ensures SizesFollow(room, was, ops, done + [ok], now) == true
  {
    var first := ops[..|done| + 1];
    assert first[..|done|] == ops[..|done|];
    SizesOnce(room, list, ops[|done|]);
    forall k | 0 <= k < |done| + 1 ensures Fitted(room, Asked(room, was, ops[..k]), ops[k], (done + [ok])[k]) {
      if k < |done| { assert Fitted(room, Asked(room, was, ops[..k]), ops[k], done[k]); }
    }
  }

  lemma SizesOnce(room: Extent, list: seq<ExtPartition>, op: Op)
    requires Tiled(list, room.start, room.start + room.size)
    requires op.Create? ==> DEF_START_SEC < op.size < 0x1_0000_0000
    ensures Fitted(room, Extents(list), op, Goes(room, list, op)) == true
    ensures var s := Extents(list);
            Extents(After(room, list, op)) == match op
              case Create(size) => if room.present && Sum(s) + size <= room.size then s + [size] else s
              case Delete => if room.present && s != [] then s[..|s| - 1] else s
  {
    var s := Extents(list);
    SizesAddUp(list, room.start, room.start + room.size);
    match op {
      case Create(size) => if Goes(room, list, op) { assert Extents(After(room, list, op)) == s + [size]; }
      case Delete => if Goes(room, list, op) { assert Extents(After(room, list, op)) == s[..|s| - 1]; }
    }
  }

  /** The answers, the list and the partitions offered after the first operations. */
  ghost predicate Following(room: Extent, was: seq<ExtPartition>, offered: seq<PartitionEntry>, ops: seq<Op>,
                            done: seq<bool>, list: seq<ExtPartition>, entries: seq<PartitionEntry>) {
    && |done| <= |ops| && list == Played(room, was, ops[..|done|])
    && (forall k :: 0 <= k < |done| ==> done[k] == Goes(room, Played(room, was, ops[..k]), ops[k]))
    && entries == Withdrawn(offered, Deletions(ops[..|done|], done))
  }

  lemma FollowingOn(room: Extent, was: seq<ExtPartition>, offered: seq<PartitionEntry>, ops: seq<Op>, done: seq<bool>,
                    list: seq<ExtPartition>, entries: seq<PartitionEntry>, ok: bool)
    requires Following(room, was, offered, ops, done, list, entries) && |done| < |ops|
    requires ok == Goes(room, list, ops[|done|])
    ensures var op := ops[|done|];
            Following(room, was, offered, ops, done + [ok], After(room, list, op), Offered(entries, op, ok))
  {
    var n, d := |done|, Deletions(ops[..|done|], done);
    var first := ops[..n + 1];
    assert first[..n] == ops[..n] && first[n] == ops[n] && (done + [ok])[..n] == done;
    WithdrawnTwice(offered, d, 1);
    assert Deletions(first, done + [ok]) == d + if ops[n].Delete? && ok then 1 else 0;
    assert Played(room, was, first) == After(room, list, ops[n]);
  }

  lemma WithdrawnTwice(offered: seq<PartitionEntry>, m: nat, n: nat)
    ensures Withdrawn(Withdrawn(offered, m), n) == Withdrawn(offered, m + n)
  {
  }

  class PartitionTable {
    const present: bool
    const extStart: nat
    const extSize: nat
    var disk: map<nat, Boot>
    var extPartitions: seq<ExtPartition>
    /** The partitions offered for mounting. */
    var partitions: seq<PartitionEntry>

    constructor (hasExtended: bool, start: nat, size: nat, contents: map<nat, Boot>, primary: seq<PartitionEntry>)
      requires start + size < 0x1_0000_0000 && start in contents && IsEmpty(contents[start].first)
      ensures Valid() && extPartitions == [] && present == hasExtended && extStart == start && extSize == size
    {
      present, extStart, extSize, disk, extPartitions, partitions := hasExtended, start, size, contents, [], primary;
    }

    /** The disk says what memory says, and the partitions tile a prefix of the extended partition. */
    ghost predicate Valid() reads this {
      && extStart + extSize < 0x1_0000_0000 && Tiled(extPartitions, extStart, extStart + extSize)
      && Spells(disk, extStart, extPartitions)
    }

    function Room(): Extent { Extent(present, extStart, extSize) }

    /**
     A new partition behind the last.  Memory and disk agree afterwards, and the partitions still tile, exactly when the
     size leaves room for more than the record's own track.
     */
    method CreateExtPartitionEntry(size: nat) returns (ok: bool)
      requires Valid() && size < 0x1_0000_0000
      modifies `disk, `extPartitions
      ensures ok == Goes(Room(), old(extPartitions), Create(size))
      ensures var was := old(extPartitions);
              ok <==> present
                      && (if was == [] then extStart else EndOf(was[|was| - 1])) + size <= extStart + extSize
      ensures !ok ==> unchanged(this)
      ensures extPartitions == After(Room(), old(extPartitions), Create(size))
      ensures ok ==> |extPartitions| == |old(extPartitions)| + 1 && old(extPartitions) <= extPartitions
      ensures ok ==>
                var was, e := old(extPartitions), extPartitions[|old(extPartitions)|];
                && e.actualStart == (if was == [] then extStart else EndOf(was[|was| - 1]))
                && e.current.system == SI_EMTY && e.current.start == 63
                && e.current.size == (if size >= 63 then size - 63 else size - 63 + 0x1_0000_0000)
                && (size >= 63 ==> e.actualStart + e.current.start + e.current.size == e.actualStart + size)
                && (was != [] ==>
                      && was[|was| - 1].actualStart in disk
                      && var next := disk[was[|was| - 1].actualStart].second;
                         next.system == SI_EXT && extStart + next.start == e.actualStart && next.size == size)
      ensures ok ==> (Spells(disk, extStart, extPartitions) <==>
                        size != DEF_START_SEC && (old(extPartitions) == [] || size > 0))
      ensures ok ==> (Tiled(extPartitions, extStart, extStart + extSize) <==> size >= DEF_START_SEC)
      ensures ok ==> (Valid() <==> size > DEF_START_SEC)
    {
      if !present { return false; }
      ghost var list, to := extPartitions, extStart + extSize;
      if list != [] { Ordered(list, extStart, to, |list| - 1, |list| - 1); }
      var used: nat := NextStart(extStart, extPartitions) - extStart;
      if extSize >= used && extSize - used < size { return false; }
      var sectors := (size - DEF_START_SEC) % 0x1_0000_0000;
      var e := ExtPartition(Record(SI_EMTY, DEF_START_SEC, sectors), used + extStart);
      SpellsAppended(disk, extStart, to, list, e, size);
      TiledAppended(list, extStart, to, e);
      var tail := extPartitions;
      extPartitions := extPartitions + [e];
      disk := disk[e.actualStart := Boot(e.current, EMPTY)];
      if tail != [] {
        var previous := tail[|tail| - 1].actualStart;
        disk := disk[previous := disk[previous].(second := Record(SI_EXT, used, size))];
      }
      ok := true;
    }

    /** The last partition goes from disk and memory, which still agree, and one fewer is offered, if any is. */
    method DeleteExtPartition() returns (ok: bool)
      requires Valid()
      modifies `disk, `extPartitions, `partitions
      ensures Valid() && ok == Goes(Room(), old(extPartitions), Delete)
      ensures ok <==> present && old(extPartitions) != []
      ensures !ok ==> unchanged(this)
      ensures extPartitions == After(Room(), old(extPartitions), Delete)
      ensures ok ==> extPartitions == old(extPartitions)[..|old(extPartitions)| - 1]
      ensures ok ==> var gone := old(extPartitions)[|old(extPartitions)| - 1].actualStart;
                     gone in disk && disk[gone] == Boot(EMPTY, EMPTY)
      ensures partitions == if ok && old(partitions) != [] then old(partitions)[..|old(partitions)| - 1]
                            else old(partitions)
    {
      if extPartitions == [] || !present { return false; }
      SpellsCut(disk, extStart, extStart + extSize, extPartitions);
      var n := |extPartitions|;
      if n > 1 {
        var previous := extPartitions[n - 2].actualStart;
        disk := disk[previous := disk[previous].(second := EMPTY)];
      }
      disk := disk[extPartitions[n - 1].actualStart := Boot(EMPTY, EMPTY)];
      extPartitions := extPartitions[..n - 1];
      if partitions != [] { partitions := partitions[..|partitions| - 1]; }
      ok := true;
    }

    /** The chain as it is parsed when the drive is mounted. */
    method ReadExtPartitions() returns (list: seq<ExtPartition>, entries: seq<PartitionEntry>)
      requires Spells(disk, extStart, extPartitions)
      ensures list == extPartitions
      ensures |entries| == |list|
      ensures forall i :: 0 <= i < |list| ==>
                entries[i] == PartitionEntry(list[i].actualStart + list[i].current.start, list[i].current.size)
    {
      list, entries := [], [];
      var sector := extStart;
      while true
        invariant |list| <= |extPartitions| && list == extPartitions[..|list|] && |entries| == |list|
        invariant if |list| < |extPartitions| then sector == extPartitions[|list|].actualStart
                  else extPartitions == [] && sector == extStart
        invariant forall i :: 0 <= i < |list| ==>
                    entries[i] == PartitionEntry(list[i].actualStart + list[i].current.start, list[i].current.size)
        decreases |extPartitions| - |list|
      {
        assert extPartitions != [] ==> Linked(disk, extStart, extPartitions, |list|);
        var boot := disk[sector];
        if IsEmpty(boot.first) { break; }
        list := list + [ExtPartition(boot.first, sector)];
        entries := entries + [PartitionEntry(boot.first.start + sector, boot.first.size)];
        if IsEmpty(boot.second) { break; }
        sector := extStart + boot.second.start;
      }
    }

    /**
     Creating a partition and deleting it again leaves chain and list as they were, but the partition before it is no
     longer offered for mounting: creation offers none, deletion withdraws one.
     */
    method CreateThenDelete(size: nat) returns (ok: bool)
      requires Valid() && DEF_START_SEC < size < 0x1_0000_0000
      modifies `disk, `extPartitions, `partitions
      ensures Valid() && extPartitions == old(extPartitions)
      ensures ok == Goes(Room(), old(extPartitions), Create(size))
      ensures partitions == if ok && old(partitions) != [] then old(partitions)[..|old(partitions)| - 1]
                            else old(partitions)
    {
      ok := CreateExtPartitionEntry(size);
      if ok {
        var deleted := DeleteExtPartition();
      }
    }

    method Perform(op: Op) returns (ok: bool)
      requires Valid() && (op.Create? ==> DEF_START_SEC < op.size < 0x1_0000_0000)
      modifies this
      ensures Valid() && ok == Goes(Room(), old(extPartitions), op)
      ensures extPartitions == After(Room(), old(extPartitions), op)
      ensures partitions == Offered(old(partitions), op, ok)
    {
      match op
      case Create(size) => ok := CreateExtPartitionEntry(size);
      case Delete => ok := DeleteExtPartition();
    }

    /**
     Over every run of deletions and of creations larger than a track: what each operation answers, the list that comes
     of it, and that parsing the disk yields that list.  The sizes asked for alone decide which operations succeed;
     those that stand lie one behind the other, each partition a track behind the start of its extent.
     */
    method Run(ops: seq<Op>) returns (done: seq<bool>, list: seq<ExtPartition>, entries: seq<PartitionEntry>)
      requires Valid() && forall i :: 0 <= i < |ops| && ops[i].Create? ==> DEF_START_SEC < ops[i].size < 0x1_0000_0000
      modifies this
      ensures Valid() && list == extPartitions == Played(Room(), old(extPartitions), ops)
      ensures |done| == |ops|
      ensures forall k :: 0 <= k < |ops| ==>
                done[k] == Goes(Room(), Played(Room(), old(extPartitions), ops[..k]), ops[k])
      ensures var offered, n := old(partitions), Deletions(ops, done);
              partitions == if n >= |offered| then [] else offered[..|offered| - n]
      ensures forall k :: 0 <= k < |ops| ==>
                Fitted(Room(), Asked(Room(), Extents(old(extPartitions)), ops[..k]), ops[k], done[k])
      ensures var sizes := Asked(Room(), Extents(old(extPartitions)), ops);
              Extents(list) == sizes && Laid(entries, extStart, sizes)
    {
      done := [];
      ghost var was, offered, sizes := extPartitions, partitions, Extents(extPartitions);
      while |done| < |ops|
        invariant Valid() && Following(Room(), was, offered, ops, done, extPartitions, partitions) == true
        invariant SizesFollow(Room(), sizes, ops, done, extPartitions) == true
        decreases |ops| - |done|
      {
        ghost var list0, offered0 := extPartitions, partitions;
        var ok := Perform(ops[|done|]);
        SizesOn(Room(), sizes, ops, done, list0, ok, extPartitions);
        FollowingOn(Room(), was, offered, ops, done, list0, offered0, ok);
        done := done + [ok];
      }
      assert ops[..|ops|] == ops;
      list, entries := ReadExtPartitions();
      EntriesLaid(list, extStart, extStart + extSize, entries);
    }
  }
}
