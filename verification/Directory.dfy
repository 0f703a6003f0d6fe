/**
 A directory as its slots on disk, seven to a sector, and the entry count its own node keeps.  A slot that was never
 written holds whatever the sector held; creating an entry in a sector that was not read first leaves such slots too.
 */
module Directory {
  import opened Wrappers

  const DIR_ENTRIES_PER_SECTOR := 7

  /** Name, deleted flag, and what the file system keeps of the file. */
  datatype Slot = Slot(name: string, deleted: bool, isDirectory: bool, start: nat, size: nat)

  type DirSector = s: seq<Slot> | |s| == 7 witness seq(7, _ => Slot("", true, false, 0, 0))

  function Flat(sectors: seq<DirSector>): seq<Slot> {
    seq(7 * |sectors|, i requires 0 <= i < 7 * |sectors| => sectors[i / 7][i % 7])
  }

  /** How many slots are not marked deleted. */
  function Count(slots: seq<Slot>): nat {
    if slots == [] then 0
    else Count(slots[..|slots| - 1]) + (if slots[|slots| - 1].deleted then 0 else 1)
  }

  ghost predicate Unique(slots: seq<Slot>) {
    forall i, j :: 0 <= i < j < |slots| && !slots[i].deleted && !slots[j].deleted ==> slots[i].name != slots[j].name
  }

  ghost predicate HasAt(slots: seq<Slot>, i: int, name: string) {
    0 <= i < |slots| && !slots[i].deleted && slots[i].name == name
  }

  /** The entries by name. */
  ghost function Entries(slots: seq<Slot>): map<string, Slot> {
    if slots == [] then map[]
    else
      var last := slots[|slots| - 1];
      var rest := Entries(slots[..|slots| - 1]);
      if last.deleted then rest else rest[last.name := last]
  }

  lemma {:induction false} EntriesSpec(slots: seq<Slot>, name: string)
    requires Unique(slots)
    ensures name in Entries(slots) <==> exists i :: HasAt(slots, i, name)
    ensures forall i :: HasAt(slots, i, name) ==> name in Entries(slots) && Entries(slots)[name] == slots[i]
  {
    if slots != [] {
      var n := |slots| - 1;
      var rest := slots[..n];
      EntriesSpec(rest, name);
      assert forall i :: HasAt(rest, i, name) ==> HasAt(slots, i, name);
      forall i | HasAt(slots, i, name) ensures name in Entries(slots) && Entries(slots)[name] == slots[i] {
        if i < n { assert HasAt(rest, i, name); }
      }
    }
  }

  /** With distinct names there are as many entries as live slots. */
  lemma {:induction false} EntriesCount(slots: seq<Slot>)
    requires Unique(slots)
    ensures |Entries(slots)| == Count(slots)
  {
    if slots != [] {
      var n := |slots| - 1;
      EntriesCount(slots[..n]);
      EntriesSpec(slots[..n], slots[n].name);
      assert !slots[n].deleted ==> forall i :: 0 <= i < n && !slots[i].deleted ==> !HasAt(slots[..n], i, slots[n].name);
    }
  }

  lemma {:induction false} CountSplit(slots: seq<Slot>, k: nat)
    requires k <= |slots|
    ensures Count(slots) == Count(slots[..k]) + Count(slots[k..])
  {
    if k == |slots| {
      assert slots[..k] == slots;
    } else {
      var n := |slots| - 1;
      CountSplit(slots[..n], k);
      assert slots[..n][..k] == slots[..k] && slots[..n][k..] == slots[k..][..n - k];
    }
  }

  lemma {:induction false} CountZero(slots: seq<Slot>, i: nat)
    requires Count(slots) == 0 && i < |slots|
    ensures slots[i].deleted
  {
    if i < |slots| - 1 { CountZero(slots[..|slots| - 1], i); }
  }

  lemma CountMonotone(slots: seq<Slot>, j: nat, k: nat)
    requires j <= k <= |slots|
    ensures Count(slots[..j]) <= Count(slots[..k])
  {
    CountSplit(slots[..k], j);
    assert slots[..k][..j] == slots[..j];
  }

  lemma CountStep(slots: seq<Slot>, k: nat)
    requires k < |slots|
    ensures Count(slots[..k + 1]) == Count(slots[..k]) + (if slots[k].deleted then 0 else 1)
  {
    assert slots[..k + 1][..k] == slots[..k];
  }

  /** Once all counted slots are behind, the rest is deleted. */
  lemma RestDeleted(slots: seq<Slot>, k: nat, i: nat)
    requires k <= i < |slots| && Count(slots[..k]) == Count(slots)
    ensures slots[i].deleted
  {
    CountSplit(slots, k);
    CountZero(slots[k..], i - k);
  }

  /** Writing a live slot over a deleted one inserts the entry. */
  lemma InsertAt(slots: seq<Slot>, p: nat, node: Slot)
    requires Unique(slots) && p < |slots| && slots[p].deleted && !node.deleted && node.name !in Entries(slots)
    ensures Unique(slots[p := node]) && Entries(slots[p := node]) == Entries(slots)[node.name := node]
    ensures Count(slots[p := node]) == Count(slots) + 1
  {
    var now := slots[p := node];
    EntriesSpec(slots, node.name);
    assert forall i :: 0 <= i < |slots| && !slots[i].deleted ==> HasAt(slots, i, slots[i].name);
    assert Unique(now) by {
      forall i, j | 0 <= i < j < |now| && !now[i].deleted && !now[j].deleted ensures now[i].name != now[j].name {
        if i == p || j == p { assert !HasAt(slots, if i == p then j else i, node.name); }
      }
    }
    assert HasAt(now, p, node.name);
    SameByName(slots, now, node.name, Some(node));
    EntriesCount(slots);
    EntriesCount(now);
  }

  /** Marking a live slot deleted removes the entry. */
  lemma RemoveAt(slots: seq<Slot>, p: nat)
    requires Unique(slots) && p < |slots| && !slots[p].deleted
    ensures var now := slots[p := slots[p].(deleted := true)];
            Unique(now) && Entries(now) == Entries(slots) - {slots[p].name} && Count(now) == Count(slots) - 1
  {
    var now := slots[p := slots[p].(deleted := true)];
    var name := slots[p].name;
    EntriesSpec(slots, name);
    assert HasAt(slots, p, name);
    SameByName(slots, now, name, None);
    EntriesCount(slots);
    EntriesCount(now);
    assert (Entries(slots) - {name}).Keys == Entries(slots).Keys - {name};
  }

  /** Two slot lists that agree on every name but one have the same entries but for that one. */
  lemma SameByName(slots: seq<Slot>, now: seq<Slot>, name: string, entry: Option<Slot>)
    requires Unique(slots) && Unique(now) && |slots| == |now|
    requires forall i, other :: other != name ==> (HasAt(slots, i, other) <==> HasAt(now, i, other))
    requires forall i, other :: other != name && HasAt(slots, i, other) ==> now[i] == slots[i]
    requires entry.Some? ==> exists i :: HasAt(now, i, name) && now[i] == entry.value
    requires entry.None? ==> forall i :: !HasAt(now, i, name)
    ensures Entries(now) == if entry.Some? then Entries(slots)[name := entry.value] else Entries(slots) - {name}
  {
    var want := if entry.Some? then Entries(slots)[name := entry.value] else Entries(slots) - {name};
    EntriesSpec(now, name);
    forall other: string ensures other in Entries(now) <==> other in want {
      EntriesSpec(slots, other);
      EntriesSpec(now, other);
    }
    forall other | other in want ensures Entries(now)[other] == want[other] {
      EntriesSpec(slots, other);
      EntriesSpec(now, other);
      if other != name {
        var i :| HasAt(slots, i, other);
      }
    }
  }

  // ---------------------------------------------------------------- lookup

  /** Where a lookup ends: the entry, a slot to create it in, or the need for another sector behind the last. */
  datatype Place = Hit(sector: nat, pos: nat) | Vacant(sector: nat, pos: nat) | NoRoom | NotFound

  ghost predicate NoneNamed(slots: seq<Slot>, name: string, i: nat) {
    forall j :: 0 <= j < i && j < |slots| ==> slots[j].deleted || slots[j].name != name
  }

  /** The first `i` slots hold no entry of the name, and scanning past them is still called for. */
  ghost predicate Passed(slots: seq<Slot>, size: nat, name: string, i: nat) {
    && i <= |slots|
    && NoneNamed(slots, name, i)
    && (Count(slots[..i]) == 0 || Count(slots[..i]) < size)
  }

  ghost predicate FirstDeleted(slots: seq<Slot>, i: nat, d: Option<SlotId>) {
    if d.None? then forall j :: 0 <= j < i && j < |slots| ==> !slots[j].deleted
    else
      var at := 7 * d.value.0 + d.value.1;
      d.value.1 < 7 && at < i && at < |slots| && slots[at].deleted && forall j :: 0 <= j < at ==> !slots[j].deleted
  }

  /** What the scan knows after `i` slots. */
  ghost predicate Scanned(slots: seq<Slot>, size: nat, name: string, i: nat, count: nat, deleted: Option<SlotId>) {
    Passed(slots, size, name, i) && count == Count(slots[..i]) && FirstDeleted(slots, i, deleted)
  }

  /** The scan went over the first `end` slots without meeting the name: all it had to, or all there are. */
  ghost predicate Exhausted(slots: seq<Slot>, size: nat, name: string, end: nat) {
    && end <= |slots| && NoneNamed(slots, name, end)
    && (end == |slots| || Count(slots[..end]) >= size)
    && (size > 0 ==> Count(slots[..end]) <= size)
    && (slots != [] ==> end > 0)
    && (Count(slots[..end]) == 0 ==> end % 7 == 0)
    && (0 < Count(slots[..end]) == size ==> !slots[end - 1].deleted)
  }

  ghost predicate AllLive(slots: seq<Slot>, end: nat) {
    forall j :: 0 <= j < end && j < |slots| ==> !slots[j].deleted
  }

  ghost predicate Found(slots: seq<Slot>, size: nat, name: string, place: Place, end: nat) {
    match place
    case Hit(s, pos) =>
      pos < 7 && HasAt(slots, 7 * s + pos, name) && Passed(slots, size, name, 7 * s + pos) && (size == 0 ==> s == 0)
    case Vacant(s, pos) =>
      var p := 7 * s + pos;
      && pos < 7 && p < |slots| && Exhausted(slots, size, name, end) && AllLive(slots, p)
      && (if p < end then slots[p].deleted else p == end && Count(slots[..end]) >= size)
    case NoRoom => Exhausted(slots, size, name, end) && AllLive(slots, end) && end == |slots| && Count(slots) >= size
    case NotFound =>
      Exhausted(slots, size, name, end) && AllLive(slots, end) && end == |slots| && Passed(slots, size, name, end)
  }

  /** The sector answered is copied out, unless the answer is the first slot of a sector the scan did not read. */
  ghost predicate Copied(sectors: seq<DirSector>, place: Place, end: nat, buffer: DirSector, copy: DirSector) {
    match place
    case Hit(s, _) => s < |sectors| && copy == sectors[s]
    case Vacant(s, pos) => s < |sectors| && copy == if 7 * s + pos == end && pos == 0 then buffer else sectors[s]
    case _ => copy == buffer
  }

  /** The count is met behind slot `pos` of sector `s`, or with that sector when `pos` is 7. */
  ghost predicate Met(slots: seq<Slot>, size: nat, name: string, s: nat, pos: nat, deleted: Option<SlotId>, end: nat) {
    && Exhausted(slots, size, name, end) && Count(slots[..end]) >= size
    && FirstDeleted(slots, end, deleted) && (pos < 7 ==> end == 7 * s + pos + 1) && (deleted.Some? || pos < 7)
  }

  lemma PassDeleted(slots: seq<Slot>, size: nat, name: string, s: nat, pos: nat, count: nat, deleted: Option<SlotId>)
    requires pos < 7 && 7 * s + pos < |slots| && slots[7 * s + pos].deleted
    requires Scanned(slots, size, name, 7 * s + pos, count, deleted)
    ensures Scanned(slots, size, name, 7 * s + pos + 1, count, if deleted.None? then Some((s, pos)) else deleted)
  {
    CountStep(slots, 7 * s + pos);
  }

  lemma PassLive(slots: seq<Slot>, size: nat, name: string, s: nat, pos: nat, count: nat, deleted: Option<SlotId>)
    requires pos < 7 && 7 * s + pos < |slots|
    requires !slots[7 * s + pos].deleted && slots[7 * s + pos].name != name
    requires Scanned(slots, size, name, 7 * s + pos, count, deleted)
    ensures count + 1 < size ==> Scanned(slots, size, name, 7 * s + pos + 1, count + 1, deleted)
    ensures count + 1 >= size ==> Met(slots, size, name, s, pos, deleted, 7 * s + pos + 1)
  {
    CountStep(slots, 7 * s + pos);
  }

  /** Only an empty directory has its count met without a live slot: its first sector is all deleted then. */
  lemma SectorPassed(slots: seq<Slot>, size: nat, name: string, s: nat, count: nat, deleted: Option<SlotId>)
    requires 7 * s + 7 <= |slots| && Scanned(slots, size, name, 7 * s + 7, count, deleted) && count >= size
    ensures Met(slots, size, name, s, 7, deleted, 7 * s + 7)
  {
    CountZero(slots[..7 * s + 7], 0);
  }

  lemma FlatSlice(sectors: seq<DirSector>, s: nat)
    requires s < |sectors|
    ensures Flat(sectors)[7 * s..7 * s + 7] == sectors[s]
  {
  }

  type SlotId = (nat, nat)

  /**
   The scan of one sector: stops at the entry, or at the live slot that completes the count.  `pos` is where it stopped,
   7 when it did not; `next` is how many slots are behind then.
   */
  method ScanSector(sector: DirSector, size: nat, name: string, s: nat, count0: nat, deleted0: Option<SlotId>,
                    ghost slots: seq<Slot>)
    returns (hit: bool, pos: nat, count: nat, deleted: Option<SlotId>, ghost next: nat)
    requires 7 * s + 7 <= |slots| && slots[7 * s..7 * s + 7] == sector
    requires Scanned(slots, size, name, 7 * s, count0, deleted0) == true
    ensures hit ==> pos < 7 && HasAt(slots, 7 * s + pos, name) && Passed(slots, size, name, 7 * s + pos)
    ensures !hit && count >= size ==> Met(slots, size, name, s, pos, deleted, next) == true
    ensures !hit && count < size ==> Scanned(slots, size, name, 7 * s + 7, count, deleted) == true
  {
    hit, pos, count, deleted := false, 0, count0, deleted0;
    while pos < 7
      invariant pos <= 7 && Scanned(slots, size, name, 7 * s + pos, count, deleted) == true
    {
      var cur := sector[pos];
      assert cur == slots[7 * s + pos];
      if cur.name == name && !cur.deleted {
        return true, pos, count, deleted, 0;
      }
      if cur.deleted {
        PassDeleted(slots, size, name, s, pos, count, deleted);
        if deleted.None? { deleted := Some((s, pos)); }
      } else {
        PassLive(slots, size, name, s, pos, count, deleted);
        count := count + 1;
        if count >= size {
          return false, pos, count, deleted, 7 * s + pos + 1;
        }
      }
      pos := pos + 1;
    }
    next := 7 * s + 7;
    if count >= size { SectorPassed(slots, size, name, s, count, deleted); }
  }

  lemma Conclude(slots: seq<Slot>, size: nat, name: string, end: nat, deleted: Option<SlotId>)
    requires Exhausted(slots, size, name, end) && Count(slots[..end]) >= size && FirstDeleted(slots, end, deleted)
    ensures deleted.Some? ==> Found(slots, size, name, Vacant(deleted.value.0, deleted.value.1), end)
    ensures deleted.None? && end < |slots| ==> Found(slots, size, name, Vacant(end / 7, end % 7), end)
    ensures deleted.None? && end == |slots| ==> Found(slots, size, name, NoRoom, end)
  {
    assert end == |slots| ==> slots[..end] == slots;
  }

  lemma ConcludeEnd(slots: seq<Slot>, size: nat, name: string, count: nat, deleted: Option<SlotId>)
    requires |slots| % 7 == 0 && Scanned(slots, size, name, |slots|, count, deleted)
    ensures deleted.Some? ==> Found(slots, size, name, Vacant(deleted.value.0, deleted.value.1), |slots|)
    ensures deleted.None? ==> Found(slots, size, name, NotFound, |slots|)
  {
    assert slots[..|slots|] == slots;
  }

  /** The answer once the count is met: the first deleted slot, else the slot after the last live one. */
  method Decide(sectors: seq<DirSector>, ghost size: nat, ghost name: string, buffer: DirSector,
                s: nat, pos: nat, deleted: Option<SlotId>, ghost end: nat)
    returns (place: Place, copy: DirSector)
    requires s < |sectors| && Met(Flat(sectors), size, name, s, pos, deleted, end)
    ensures Found(Flat(sectors), size, name, place, end) == true && Copied(sectors, place, end, buffer, copy)
  {
    Conclude(Flat(sectors), size, name, end, deleted);
    if deleted.Some? {
      return Vacant(deleted.value.0, deleted.value.1), sectors[deleted.value.0];
    }
    if pos < 6 {
      return Vacant(s, pos + 1), sectors[s];
    }
    if s + 1 < |sectors| { return Vacant(s + 1, 0), buffer; }
    return NoRoom, buffer;
  }

  datatype Scan = AtEntry | AtCount | AtEnd

  /** The scan of the chain has come to its answer. */
  ghost predicate Concluded(slots: seq<Slot>, sectors: nat, size: nat, name: string,
                            r: Scan, s: nat, pos: nat, deleted: Option<SlotId>, end: nat) {
    match r
    case AtEntry => Found(slots, size, name, Hit(s, pos), end) && s < sectors
    case AtCount => s < sectors && Met(slots, size, name, s, pos, deleted, end)
    case AtEnd => exists count :: Scanned(slots, size, name, 7 * sectors, count, deleted)
  }

  /** The scan of one sector of the chain: an answer, or on to the next. */
  method ScanNext(sectors: seq<DirSector>, size: nat, name: string, s: nat, count0: nat, deleted0: Option<SlotId>)
    returns (r: Scan, pos: nat, count: nat, deleted: Option<SlotId>, ghost end: nat)
    requires s < |sectors| && Scanned(Flat(sectors), size, name, 7 * s, count0, deleted0) && (size == 0 ==> s == 0)
    ensures !r.AtEnd? ==> Concluded(Flat(sectors), |sectors|, size, name, r, s, pos, deleted, end)
    ensures r.AtEnd? ==> Scanned(Flat(sectors), size, name, 7 * s + 7, count, deleted) && count < size
  {
    FlatSlice(sectors, s);
    var hit;
    hit, pos, count, deleted, end := ScanSector(sectors[s], size, name, s, count0, deleted0, Flat(sectors));
    r := if hit then AtEntry else if count >= size then AtCount else AtEnd;
  }

  /** The scan of the chain, sector by sector, up to the entry, the count or the end. */
  method ScanChain(sectors: seq<DirSector>, size: nat, name: string)
    returns (r: Scan, s: nat, pos: nat, deleted: Option<SlotId>, ghost end: nat)
    ensures r.AtEntry? ==> HasAt(Flat(sectors), 7 * s + pos, name)
    ensures Concluded(Flat(sectors), |sectors|, size, name, r, s, pos, deleted, end)
  {
    s, pos, deleted, end := 0, 0, None, 0;
    var count: nat := 0;
    assert Flat(sectors)[..0] == [];
    while s < |sectors|
      invariant s <= |sectors| && Scanned(Flat(sectors), size, name, 7 * s, count, deleted) && (size == 0 ==> s == 0)
    {
      r, pos, count, deleted, end := ScanNext(sectors, size, name, s, count, deleted);
      if !r.AtEnd? { return; }
      s := s + 1;
    }
    r := AtEnd;
  }

  /** Looks a name up. */
  method FindDirectory(sectors: seq<DirSector>, size: nat, name: string, buffer: DirSector)
    returns (place: Place, copy: DirSector, ghost end: nat)
    ensures place.Hit? ==> HasAt(Flat(sectors), 7 * place.sector + place.pos, name)
    ensures place.Vacant? ==> place.sector < |sectors| && AllLive(Flat(sectors), 7 * place.sector + place.pos)
    ensures Found(Flat(sectors), size, name, place, end) == true && Copied(sectors, place, end, buffer, copy)
  {
    var r, s, pos, deleted;
    r, s, pos, deleted, end := ScanChain(sectors, size, name);
    match r {
      case AtEntry =>
        return Hit(s, pos), sectors[s], end;
      case AtCount =>
        place, copy := Decide(sectors, size, name, buffer, s, pos, deleted, end);
      case AtEnd =>
        end := 7 * |sectors|;
        ghost var count: nat :| Scanned(Flat(sectors), size, name, end, count, deleted);
        ConcludeEnd(Flat(sectors), size, name, count, deleted);
        place, copy := NotFound, buffer;
        if deleted.Some? {
          place, copy := Vacant(deleted.value.0, deleted.value.1), sectors[deleted.value.0];
        }
    }
  }

  // ---------------------------------------------------------------- the directory as a map

  /**
   With no entry left, the scan of the first sector goes on to the first slot not marked deleted; if that slot, never
   written, happens to hold the name, the lookup answers it.
   */
  predicate Misled(sectors: seq<DirSector>, size: nat, name: string) {
    size == 0 && sectors != [] && exists g | 0 <= g < 7 :: NamedFirst(sectors[0], g, name)
  }

  predicate NamedFirst(sector: DirSector, g: nat, name: string) {
    g < 7 && !sector[g].deleted && sector[g].name == name && forall j | 0 <= j < g :: sector[j].deleted
  }

  /** The first `used` slots have been written and `size` of them are live, under distinct names. */
  ghost predicate Sound(sectors: seq<DirSector>, size: nat, used: nat) {
    && used <= 7 * |sectors| && (sectors != [] ==> used > 0)
    && Unique(Flat(sectors)[..used]) && Count(Flat(sectors)[..used]) == size
  }

  ghost function Contents(sectors: seq<DirSector>, used: nat): map<string, Slot>
    requires used <= 7 * |sectors|
  {
    Entries(Flat(sectors)[..used])
  }

  lemma HitIsEntry(sectors: seq<DirSector>, size: nat, used: nat, name: string, s: nat, pos: nat, end: nat)
    requires Sound(sectors, size, used) && Found(Flat(sectors), size, name, Hit(s, pos), end) && size > 0
    ensures 7 * s + pos < used && name in Contents(sectors, used) && Contents(sectors, used)[name] == sectors[s][pos]
  {
    var slots, i := Flat(sectors), 7 * s + pos;
    if used <= i { CountMonotone(slots, used, i); }
    EntriesSpec(slots[..used], name);
    assert HasAt(slots[..used], i, name);
  }

  lemma HitInEmptyIsMisled(sectors: seq<DirSector>, name: string, s: nat, pos: nat, end: nat)
    requires Found(Flat(sectors), 0, name, Hit(s, pos), end)
    ensures Misled(sectors, 0, name)
  {
    var slots := Flat(sectors);
    forall j | 0 <= j < pos ensures sectors[0][j].deleted {
      CountZero(slots[..pos], j);
      assert slots[j] == sectors[0][j];
    }
    assert NamedFirst(sectors[0], pos, name);
  }

  /** A scan that ends without a hit has met every live slot. */
  lemma MissIsAbsent(sectors: seq<DirSector>, size: nat, used: nat, name: string, end: nat)
    requires Sound(sectors, size, used) && Exhausted(Flat(sectors), size, name, end)
    ensures name !in Contents(sectors, used) && !Misled(sectors, size, name)
    ensures forall i :: end <= i < used ==> Flat(sectors)[i].deleted
    ensures Count(Flat(sectors)[..end]) == size || size == 0
  {
    var slots := Flat(sectors);
    var live := slots[..used];
    assert slots[..|slots|] == slots;
    forall i | end <= i < used ensures slots[i].deleted {
      CountMonotone(slots, end, used);
      assert live[..end] == slots[..end];
      RestDeleted(live, end, i);
    }
    EntriesSpec(live, name);
    if size == 0 && sectors != [] {
      forall g | 0 <= g < 7 ensures !NamedFirst(sectors[0], g, name) { EmptyMissNotMisled(sectors, name, end, g); }
    }
    if end == |slots| { CountMonotone(slots, used, end); }
  }

  lemma EmptyMissNotMisled(sectors: seq<DirSector>, name: string, end: nat, g: nat)
    requires sectors != [] && Exhausted(Flat(sectors), 0, name, end)
    ensures !NamedFirst(sectors[0], g, name)
  {
    var slots := Flat(sectors);
    if NamedFirst(sectors[0], g, name) {
      assert forall j :: 0 <= j <= g ==> slots[j] == sectors[0][j];
      if g < end {
      } else {
        AllDeletedCount(slots[..end]);
      }
    }
  }

  lemma {:induction false} AllDeletedCount(slots: seq<Slot>)
    requires forall j :: 0 <= j < |slots| ==> slots[j].deleted
    ensures Count(slots) == 0
  {
    if slots != [] { AllDeletedCount(slots[..|slots| - 1]); }
  }

  lemma {:induction false} AllLiveCount(slots: seq<Slot>)
    requires forall j :: 0 <= j < |slots| ==> !slots[j].deleted
    ensures Count(slots) == |slots|
  {
    if slots != [] { AllLiveCount(slots[..|slots| - 1]); }
  }

  lemma FlatUpdate(sectors: seq<DirSector>, s: nat, pos: nat, node: Slot)
    requires s < |sectors| && pos < 7
    ensures Flat(sectors[s := sectors[s][pos := node]]) == Flat(sectors)[7 * s + pos := node]
  {
  }

  /** The slot a new entry may take: a deleted one, or the one behind the last live slot. */
  ghost predicate MayTake(sectors: seq<DirSector>, used: nat, s: nat, pos: nat, behind: bool)
    requires used <= 7 * |sectors|
  {
    var p := 7 * s + pos;
    if behind then p <= used && forall i :: p <= i < used ==> Flat(sectors)[i].deleted
    else p < used && Flat(sectors)[p].deleted
  }

  lemma ScanStaysInUsed(sectors: seq<DirSector>, size: nat, used: nat, name: string, end: nat)
    requires Sound(sectors, size, used) && Exhausted(Flat(sectors), size, name, end) && size > 0
    ensures end <= used && Count(Flat(sectors)[..end]) == size
  {
    var slots := Flat(sectors);
    MissIsAbsent(sectors, size, used, name, end);
    if used < end {
      CountMonotone(slots, used, end - 1);
      CountStep(slots, end - 1);
    }
  }

  lemma VacantMayBeTaken(sectors: seq<DirSector>, size: nat, used: nat, name: string, s: nat, pos: nat, end: nat)
    requires Sound(sectors, size, used) && Found(Flat(sectors), size, name, Vacant(s, pos), end)
    ensures s < |sectors| && pos < 7 && size < 7 * |sectors|
    ensures MayTake(sectors, used, s, pos, 7 * s + pos >= end)
  {
    var slots, p := Flat(sectors), 7 * s + pos;
    MissIsAbsent(sectors, size, used, name, end);
    if size > 0 {
      ScanStaysInUsed(sectors, size, used, name, end);
    } else {
      CountZero(slots[..used], 0);
    }
    CountBelow(slots[..used], p);
  }

  /** What the answer of a search says of the name, and of the slot it offers. */
  lemma SearchDecides(sectors: seq<DirSector>, size: nat, used: nat, name: string, place: Place, end: nat)
    requires sectors != [] && Sound(sectors, size, used) == true && Found(Flat(sectors), size, name, place, end) == true
    ensures place.Hit? <==> name in Contents(sectors, used) || Misled(sectors, size, name)
    ensures place.Vacant? ==>
              && place.sector < |sectors| && place.pos < 7 && size < 7 * |sectors|
              && MayTake(sectors, used, place.sector, place.pos, 7 * place.sector + place.pos >= end) == true
    ensures place.NoRoom? ==> size == 7 * |sectors| && MayTake(sectors, used, |sectors|, 0, true) == true
    ensures !place.NotFound?
  {
    match place
    case Hit(s, pos) =>
      if size > 0 {
        HitIsEntry(sectors, size, used, name, s, pos, end);
      } else {
        HitInEmptyIsMisled(sectors, name, s, pos, end);
      }
    case Vacant(s, pos) =>
      MissIsAbsent(sectors, size, used, name, end);
      VacantMayBeTaken(sectors, size, used, name, s, pos, end);
    case NoRoom =>
      MissIsAbsent(sectors, size, used, name, end);
      NoRoomIsFull(sectors, size, used, name, end);
    case NotFound =>
      ScanFindsRoom(sectors, size, used, name, end);
  }

  lemma {:induction false} CountBelow(slots: seq<Slot>, p: nat)
    ensures Count(slots) <= |slots|
    ensures p < |slots| && slots[p].deleted ==> Count(slots) < |slots|
  {
    if slots != [] { CountBelow(slots[..|slots| - 1], p); }
  }

  /** The finite map a directory stands for, and how many sectors it has to keep it in. */
  datatype Listing = Listing(entries: map<string, Slot>, sectors: nat)

  class DirectoryFile {
    /** The sectors of the directory's chain, in order. */
    var sectors: seq<DirSector>
    /** The entry count in the directory's own node. */
    var size: nat
    ghost var used: nat

    ghost predicate Valid() reads this {
      Sound(sectors, size, used)
    }

    ghost function Map(): map<string, Slot> reads this requires Valid() {
      Contents(sectors, used)
    }

    ghost function Now(): Listing reads this requires Valid() {
      Listing(Map(), |sectors|)
    }

    /** Finds the entry of the name, if the directory has one. */
    method Lookup(name: string, buffer: DirSector) returns (r: Option<Slot>)
      requires Valid()
      ensures !Misled(sectors, size, name) ==> r == if name in Map() then Some(Map()[name]) else None
      ensures Misled(sectors, size, name) ==> r.Some? && name !in Map()
    {
      if sectors == [] {
        EntriesSpec(Flat(sectors)[..used], name);
        return None;
      }
      var place, copy, end := FindDirectory(sectors, size, name, buffer);
      match place {
        case Hit(s, pos) =>
          if size > 0 {
            HitIsEntry(sectors, size, used, name, s, pos, end);
          } else {
            HitInEmptyIsMisled(sectors, name, s, pos, end);
            EmptyHasNone(name);
          }
          r := Some(copy[pos]);
        case _ =>
          MissIsAbsent(sectors, size, used, name, end);
          r := None;
      }
    }

    lemma EmptyHasNone(name: string)
      requires Valid() && size == 0
      ensures name !in Map()
    {
      var live := Flat(sectors)[..used];
      EntriesSpec(live, name);
      forall i | HasAt(live, i, name) ensures false { CountZero(live, i); }
    }

    /**
     Adds an entry.  `garbage` is what the sector buffer holds before anything is read into it; `space` says whether the
     volume can give another sector.
     */
    method Create(node: Slot, garbage: DirSector, space: bool) returns (ok: bool)
      requires Valid() && !node.deleted
      modifies this
      ensures Valid()
      ensures ok <==> node.name !in old(Map()) && !Misled(old(sectors), old(size), node.name) &&
                      (space || old(size) < 7 * |old(sectors)|)
      ensures Map() == if ok then old(Map())[node.name := node] else old(Map())
      ensures size == if ok then old(size) + 1 else old(size)
      ensures |sectors| == |old(sectors)| + if ok && old(size) == 7 * |old(sectors)| then 1 else 0
    {
      if sectors == [] {
        EntriesSpec(Flat(sectors)[..used], node.name);
        if !space { return false; }
        Put(0, 0, garbage, node, true);
        return true;
      }
      var place, copy, end := FindDirectory(sectors, size, node.name, garbage);
      SearchDecides(sectors, size, used, node.name, place, end);
      match place {
        case Hit(s, pos) =>
          return false;
        case Vacant(s, pos) =>
          Put(s, pos, copy, node, 7 * s + pos >= end);
          return true;
        case NoRoom =>
          if !space { return false; }
          Put(|sectors|, 0, garbage, node, true);
          return true;
        case NotFound =>
          return false;
      }
    }

    /** Writes the entry over a deleted slot, or behind the last live one: in a sector read, the next, or a new one. */
    method Put(s: nat, pos: nat, copy: DirSector, node: Slot, ghost behind: bool)
      requires Valid() && !node.deleted && node.name !in Map()
      requires s <= |sectors| && pos < 7 && (pos != 0 || !behind ==> s < |sectors| && copy == sectors[s])
      requires MayTake(sectors, used, s, pos, behind) == true
      modifies this
      ensures Valid() && Map() == old(Map())[node.name := node] && size == old(size) + 1
      ensures |sectors| == if s < |old(sectors)| then |old(sectors)| else |old(sectors)| + 1
    {
      ghost var was, p := sectors, 7 * s + pos;
      if s < |sectors| {
        sectors := sectors[s := copy[pos := node]];
      } else {
        sectors := sectors + [copy[pos := node]];
      }
      size := size + 1;
      if behind {
        PutBehind(was, sectors, old(size), used, s, pos, p, node);
      } else {
        PutOver(was, old(size), used, s, pos, node);
      }
      used := if behind then p + 1 else used;
    }

    /**
     Marks an entry deleted and answers the first sector of its chain, which the caller frees.  A lookup misled by a
     slot never written deletes that slot instead, and the count wraps below zero.
     */
    method Delete(name: string, buffer: DirSector) returns (start: Option<nat>)
      requires Valid()
      modifies this
      ensures !old(Misled(sectors, size, name)) ==> Valid()
      ensures !old(Misled(sectors, size, name)) ==>
                (start.Some? <==> name in old(Map()) && !(old(Map())[name].isDirectory && old(Map())[name].size != 0))
      ensures !old(Misled(sectors, size, name)) && start.Some? ==>
                start.value == old(Map())[name].start && Map() == old(Map()) - {name} && size == old(size) - 1
      ensures |sectors| == |old(sectors)|
      ensures start.None? ==> sectors == old(sectors) && size == old(size) && used == old(used)
      ensures old(Misled(sectors, size, name)) && start.Some? ==> size == 0xFFFF_FFFF
    {
      if sectors == [] {
        EntriesSpec(Flat(sectors)[..used], name);
        return None;
      }
      var place, copy, end := FindDirectory(sectors, size, name, buffer);
      if !place.Hit? {
        MissIsAbsent(sectors, size, used, name, end);
        return None;
      }
      var slot := copy[place.pos];
      if size > 0 {
        HitIsEntry(sectors, size, used, name, place.sector, place.pos, end);
      } else {
        HitInEmptyIsMisled(sectors, name, place.sector, place.pos, end);
      }
      if slot.isDirectory && slot.size != 0 { return None; }
      if size > 0 {
        MarkRemoves(sectors, size, used, place.sector, place.pos);
      }
      sectors := sectors[place.sector := copy[place.pos := slot.(deleted := true)]];
      size := if size == 0 then 0xFFFF_FFFF else size - 1;
      return Some(slot.start);
    }
  }

  lemma MarkRemoves(sectors: seq<DirSector>, size: nat, used: nat, s: nat, pos: nat)
    requires Sound(sectors, size, used) && s < |sectors| && pos < 7 && 7 * s + pos < used && !sectors[s][pos].deleted
    ensures var now := sectors[s := sectors[s][pos := sectors[s][pos].(deleted := true)]];
            && size > 0 && Sound(now, size - 1, used)
            && Contents(now, used) == Contents(sectors, used) - {sectors[s][pos].name}
  {
    var p, slots := 7 * s + pos, Flat(sectors);
    var gone := slots[p].(deleted := true);
    FlatUpdate(sectors, s, pos, gone);
    RemoveAt(slots[..used], p);
    assert slots[p := gone][..used] == slots[..used][p := gone];
  }

  /** A directory emptied again, with the name in a slot of its sector that no create has written. */
  lemma EmptiedDirectoryCanMislead(gone: Slot, never: Slot)
    requires gone.deleted && !never.deleted
    ensures var sectors: seq<DirSector> := [[gone, never, never, never, never, never, never]];
            Sound(sectors, 0, 1) && Misled(sectors, 0, never.name) && never.name !in Contents(sectors, 1)
  {
    var sectors: seq<DirSector> := [[gone, never, never, never, never, never, never]];
    var written := [gone];
    assert Flat(sectors)[..1] == written;
    AllDeletedCount(written);
    EntriesSpec(written, never.name);
    assert NamedFirst(sectors[0], 1, never.name);
  }

  // ---------------------------------------------------------------- every run

  datatype Op = Add(node: Slot, space: bool) | Remove(name: string) | Ask(name: string)

  /** What an operation makes of the listing; an entry that finds no slot takes a sector. */
  ghost function Step(m: Listing, op: Op, done: bool): Listing {
    match op
    case Add(node, _) =>
      if done then
        Listing(m.entries[node.name := node], m.sectors + if |m.entries| == 7 * m.sectors then 1 else 0)
      else
        m
    case Remove(name) => if done then m.(entries := m.entries - {name}) else m
    case Ask(_) => m
  }

  /** Whether the operation is done, and what is found. */
  ghost predicate AnswerOk(m: Listing, op: Op, done: bool, slot: Option<Slot>) {
    match op
    case Add(node, space) => done <==> node.name !in m.entries && (space || |m.entries| < 7 * m.sectors)
    case Remove(name) => done <==> name in m.entries && !(m.entries[name].isDirectory && m.entries[name].size != 0)
    case Ask(name) => slot == if name in m.entries then Some(m.entries[name]) else None
  }

  function NameOf(op: Op): string {
    match op case Add(node, _) => node.name case Remove(name) => name case Ask(name) => name
  }

  method Perform(d: DirectoryFile, op: Op, garbage: DirSector) returns (done: bool, slot: Option<Slot>)
    requires d.Valid() && !Misled(d.sectors, d.size, NameOf(op)) && (op.Add? ==> !op.node.deleted)
    modifies d
    ensures d.Valid() && d.Now() == Step(old(d.Now()), op, done) && AnswerOk(old(d.Now()), op, done, slot)
  {
    done, slot := true, None;
    EntriesCount(Flat(d.sectors)[..d.used]);
    match op
    case Add(node, space) => done := d.Create(node, garbage, space);
    case Remove(name) =>
      var start := d.Delete(name, garbage);
      done := start.Some?;
    case Ask(name) => slot := d.Lookup(name, garbage);
  }

  ghost function ListingRun(m: Listing, ops: seq<Op>, done: seq<bool>): Listing
    requires |ops| == |done|
  {
    if ops == [] then m
    else
      var n := |ops| - 1;
      Step(ListingRun(m, ops[..n], done[..n]), ops[n], done[n])
  }

  /** The answers so far are those of the map after the steps before them. */
  ghost predicate Answered(m: Listing, ops: seq<Op>, done: seq<bool>, slots: seq<Option<Slot>>)
    requires |done| == |slots| <= |ops|
  {
    forall i :: 0 <= i < |done| ==> AnswerOk(ListingRun(m, ops[..i], done[..i]), ops[i], done[i], slots[i])
  }

  lemma AnsweredNext(m: Listing, ops: seq<Op>, done: seq<bool>, slots: seq<Option<Slot>>, ok: bool,
                     slot: Option<Slot>)
    requires |done| == |slots| < |ops| && Answered(m, ops, done, slots)
    requires AnswerOk(ListingRun(m, ops[..|done|], done), ops[|done|], ok, slot)
    ensures Answered(m, ops, done + [ok], slots + [slot])
    ensures ListingRun(m, ops[..|done| + 1], done + [ok]) == Step(ListingRun(m, ops[..|done|], done), ops[|done|], ok)
  {
    var n, now, answers := |done|, done + [ok], slots + [slot];
    assert ops[..n + 1][..n] == ops[..n] && now[..n] == done;
    forall i | 0 <= i < |now| ensures AnswerOk(ListingRun(m, ops[..i], now[..i]), ops[i], now[i], answers[i]) {
      if i < n { assert now[..i] == done[..i]; }
    }
  }

  /** Any run of creates, deletes and lookups, up to the first that would be misled, is a run on the finite map. */
  method Run(d: DirectoryFile, ops: seq<Op>, garbage: DirSector) returns (done: seq<bool>, slots: seq<Option<Slot>>)
    requires d.Valid() && forall i :: 0 <= i < |ops| && ops[i].Add? ==> !ops[i].node.deleted
    modifies d
    ensures d.Valid() && |done| == |slots| <= |ops| && d.Now() == ListingRun(old(d.Now()), ops[..|done|], done)
    ensures d.size == |d.Map()|
    ensures |done| < |ops| ==> Misled(d.sectors, d.size, NameOf(ops[|done|]))
    ensures Answered(old(d.Now()), ops, done, slots)
  {
    ghost var m := d.Now();
    done, slots := [], [];
    while |done| < |ops| && !Misled(d.sectors, d.size, NameOf(ops[|done|]))
      invariant d.Valid() && |done| == |slots| <= |ops| && d.Now() == ListingRun(m, ops[..|done|], done)
      invariant Answered(m, ops, done, slots)
      decreases |ops| - |done|
    {
      var ok, slot := Perform(d, ops[|done|], garbage);
      AnsweredNext(m, ops, done, slots, ok, slot);
      done, slots := done + [ok], slots + [slot];
    }
    EntriesCount(Flat(d.sectors)[..d.used]);
  }

  lemma PutOver(was: seq<DirSector>, size: nat, used: nat, s: nat, pos: nat, node: Slot)
    requires Sound(was, size, used) && !node.deleted && node.name !in Contents(was, used)
    requires s < |was| && pos < 7 && MayTake(was, used, s, pos, false)
    ensures var now := was[s := was[s][pos := node]];
            Sound(now, size + 1, used) && Contents(now, used) == Contents(was, used)[node.name := node]
  {
    var p, flat := 7 * s + pos, Flat(was);
    FlatUpdate(was, s, pos, node);
    InsertAt(flat[..used], p, node);
    assert flat[p := node][..used] == flat[..used][p := node];
  }

  lemma PutBehind(was: seq<DirSector>, now: seq<DirSector>, size: nat, used: nat, s: nat, pos: nat, p: nat, node: Slot)
    requires Sound(was, size, used) && !node.deleted && node.name !in Contents(was, used)
    requires s <= |was| && pos < 7 && p == 7 * s + pos && MayTake(was, used, s, pos, true)
    requires s < |now| && |was| <= |now| && now[..s] == was[..s] && now[s][pos] == node
    requires pos != 0 ==> s < |was| && now[s][..pos] == was[s][..pos]
    ensures Sound(now, size + 1, p + 1) && Contents(now, p + 1) == Contents(was, used)[node.name := node]
  {
    FlatPrefix(was, now, s, pos, p);
    BehindIsInsert(Flat(was), Flat(now), used, p, node);
  }

  lemma FlatPrefix(was: seq<DirSector>, now: seq<DirSector>, s: nat, pos: nat, p: nat)
    requires s < |now| && s <= |was| && pos < 7 && now[..s] == was[..s] && p == 7 * s + pos
    requires pos != 0 ==> s < |was| && now[s][..pos] == was[s][..pos]
    ensures p < |Flat(now)| && p <= |Flat(was)| && Flat(now)[..p] == Flat(was)[..p] && Flat(now)[p] == now[s][pos]
  {
    forall i | 0 <= i < p ensures Flat(now)[i] == Flat(was)[i] {
      if i < 7 * s {
        assert now[..s][i / 7] == was[..s][i / 7];
      } else {
        assert now[s][..pos][i % 7] == was[s][..pos][i % 7];
      }
    }
  }

  lemma {:induction false} DropDeleted(slots: seq<Slot>, p: nat)
    requires p <= |slots| && forall i :: p <= i < |slots| ==> slots[i].deleted
    ensures Entries(slots[..p]) == Entries(slots) && Count(slots[..p]) == Count(slots)
  {
    if p == |slots| {
      assert slots[..p] == slots;
    } else {
      var n := |slots| - 1;
      DropDeleted(slots[..n], p);
      assert slots[..n][..p] == slots[..p];
    }
  }

  lemma BehindIsInsert(was: seq<Slot>, now: seq<Slot>, used: nat, p: nat, node: Slot)
    requires used <= |was| && p <= used && Unique(was[..used]) && !node.deleted && node.name !in Entries(was[..used])
    requires forall i :: p <= i < used ==> was[i].deleted
    requires p < |now| && now[..p] == was[..p] && now[p] == node
    ensures Unique(now[..p + 1]) && Entries(now[..p + 1]) == Entries(was[..used])[node.name := node]
    ensures Count(now[..p + 1]) == Count(was[..used]) + 1
  {
    var live := was[..used];
    assert live[..p] == was[..p];
    DropDeleted(live, p);
    assert now[..p + 1][..p] == now[..p];
    EntriesSpec(live, node.name);
    forall i | 0 <= i < p && !was[i].deleted ensures now[i] == was[i] && was[i].name != node.name {
      assert now[..p][i] == was[..p][i];
      assert !HasAt(live, i, node.name);
    }
    assert forall i :: 0 <= i < p ==> now[i] == now[..p][i] == was[..p][i] == live[i];
  }

  lemma NoRoomIsFull(sectors: seq<DirSector>, size: nat, used: nat, name: string, end: nat)
    requires sectors != [] && Sound(sectors, size, used) && Found(Flat(sectors), size, name, NoRoom, end)
    ensures size == used == 7 * |sectors|
  {
    var slots := Flat(sectors);
    assert slots[..|slots|] == slots;
    AllLiveCount(slots);
    CountMonotone(slots, used, |slots|);
    AllLiveCount(slots[..used]);
  }

  lemma ScanFindsRoom(sectors: seq<DirSector>, size: nat, used: nat, name: string, end: nat)
    requires sectors != [] && Sound(sectors, size, used)
    ensures !Found(Flat(sectors), size, name, NotFound, end)
  {
    var slots := Flat(sectors);
    assert slots[..|slots|] == slots;
    if Found(slots, size, name, NotFound, end) {
      AllLiveCount(slots);
      AllLiveCount(slots[..used]);
    }
  }
}
