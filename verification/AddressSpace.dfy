/**
 Physical pages and user address spaces.  A page holds table entries or bytes, whichever was written to it last: a byte
 stored in a table destroys it, and the other way round.
 */
module AddressSpace {

  const PROCESS_SPACE_FOR_OS := 32
  const PROCESS_BASE := 0x800_0000
  const PROCESS_GUI_FRAMEBUFFER_PDE_ID := 1021
  const STACK_PAGES := 9

  // ---------------------------------------------------------------- memory

  datatype Frame = Table(entries: map<nat, nat>) | Bytes(data: map<nat, nat>)
  type Memory = map<nat, Frame>

  function StoreEntry(m: Memory, p: nat, j: nat, v: nat): Memory {
    m[p := Table((if p in m && m[p].Table? then m[p].entries else map[])[j := v])]
  }

  function StoreByte(m: Memory, p: nat, j: nat, v: nat): Memory {
    m[p := Bytes((if p in m && m[p].Bytes? then m[p].data else map[])[j := v])]
  }

  predicate HasEntry(m: Memory, p: nat, j: nat) { p in m && m[p].Table? && j in m[p].entries }

  function LoadEntry(m: Memory, p: nat, j: nat): nat
    requires HasEntry(m, p, j)
  {
    m[p].entries[j]
  }

  predicate EntryIs(m: Memory, p: nat, j: nat, v: nat) { HasEntry(m, p, j) && LoadEntry(m, p, j) == v }

  predicate ByteIs(m: Memory, p: nat, j: nat, v: nat) { p in m && m[p].Bytes? && j in m[p].data && m[p].data[j] == v }

  /** A present page with its access bits. */
  function Entry(page: nat, flags: nat): nat { page * 4096 + flags }

  function PageOf(entry: nat): nat { entry / 4096 }

  predicate Present(entry: nat) { entry % 2 == 1 }

  predicate KernelEntryKnown(m: Memory, directory: nat, low: nat, i: nat, j: nat) {
    && HasEntry(m, directory, i) && PageOf(LoadEntry(m, directory, i)) < low
    && HasEntry(m, PageOf(LoadEntry(m, directory, i)), j)
  }

  function KernelEntry(m: Memory, directory: nat, i: nat, j: nat): nat
    requires HasEntry(m, directory, i) && HasEntry(m, PageOf(LoadEntry(m, directory, i)), j)
  {
    LoadEntry(m, PageOf(LoadEntry(m, directory, i)), j)
  }

  /** The kernel's own tables lie below the pages that are handed out. */
  ghost predicate KernelMapped(m: Memory, directory: nat, low: nat) {
    directory < low && forall i: nat, j: nat :: i < 32 && j < 1024 ==> KernelEntryKnown(m, directory, low, i, j)
  }

  ghost predicate OnlyPage(was: Memory, now: Memory, p: nat) {
    forall q :: q in was && q != p ==> q in now && now[q] == was[q]
  }

  lemma KernelKept(m: Memory, m': Memory, directory: nat, low: nat, p: nat)
    requires KernelMapped(m, directory, low) && OnlyPage(m, m', p) && p >= low
    ensures KernelMapped(m', directory, low)
    ensures forall i: nat, j: nat :: i < 32 && j < 1024 && KernelEntryKnown(m, directory, low, i, j) ==>
              KernelEntry(m', directory, i, j) == KernelEntry(m, directory, i, j)
  {
    forall i: nat, j: nat | i < 32 && j < 1024 ensures KernelEntryKnown(m', directory, low, i, j) {
      assert KernelEntryKnown(m, directory, low, i, j);
    }
  }

  // ---------------------------------------------------------------- what belongs to an address space

  datatype Kind = Image | Dll

  datatype Role =
    | Directory
    | OsTable(i: nat)
    | TableOf(kind: Kind, i: nat)
    | PageIn(kind: Kind, i: nat)
    | StackTable
    | StackPage(j: nat)

  /** Which page plays which role; no page plays two. */
  type Roles = map<Role, nat>

  ghost predicate Injective(at: Roles) {
    forall x, y :: x in at && y in at && at[x] == at[y] ==> x == y
  }

  /** The bitmap `b` is `b0` with the pages of `at` taken, all of which were free. */
  ghost predicate Claims(b0: seq<bool>, b: seq<bool>, at: Roles, low: nat) {
    && |b| == |b0|
    && (forall x :: x in at ==> low <= at[x] < |b| && !b0[at[x]] && b[at[x]])
    && (forall p :: 0 <= p < |b| && p !in at.Values ==> b[p] == b0[p])
  }

  function FreePages(b: seq<bool>, low: nat): set<nat> {
    set p: nat | low <= p < |b| && !b[p]
  }

  lemma ClaimStep(b0: seq<bool>, b: seq<bool>, at: Roles, low: nat, x: Role, p: nat)
    requires Claims(b0, b, at, low) && Injective(at) && x !in at && low <= p < |b| && !b[p]
    ensures Claims(b0, b[p := true], at[x := p], low) && Injective(at[x := p])
    ensures |FreePages(b[p := true], low)| == |FreePages(b, low)| - 1
  {
    var at' := at[x := p];
    assert FreePages(b[p := true], low) == FreePages(b, low) - {p};
    assert at'[x] == p;
    forall q | q in at.Values ensures q in at'.Values {
      var y :| y in at && at[y] == q;
      assert at'[y] == q;
    }
  }

  /** How many roles of each sort are taken, and kernel tables mirrored; stack pages are named by their entry. */
  datatype Shape = Shape(directory: bool, os: nat, tables: nat, pages: nat, stackTable: bool, stackFrom: nat,
                         stackTo: nat, dllTables: nat, dllPages: nat, mirrored: nat)

  predicate Includes(s: Shape, x: Role) {
    match x
    case Directory => s.directory
    case OsTable(i) => i < s.os
    case TableOf(kind, i) => i < (if kind.Image? then s.tables else s.dllTables)
    case PageIn(kind, i) => i < (if kind.Image? then s.pages else s.dllPages)
    case StackTable => s.stackTable
    case StackPage(j) => s.stackFrom <= j < s.stackTo
  }

  ghost predicate Shaped(at: Roles, s: Shape) {
    forall x :: x in at <==> Includes(s, x)
  }

  ghost predicate InUse(b: seq<bool>, at: Roles) {
    forall x :: x in at ==> at[x] < |b| && b[at[x]]
  }

  /** Of the pages of `at`, those in `gone` are given back, and no other bit differs. */
  ghost predicate Returned(b1: seq<bool>, b: seq<bool>, at: Roles, gone: Shape) {
    && |b| == |b1|
    && (forall x :: x in at ==> at[x] < |b| && b[at[x]] == !Includes(gone, x))
    && (forall p :: 0 <= p < |b| && p !in at.Values ==> b[p] == b1[p])
  }

  lemma ReturnStep(b1: seq<bool>, b: seq<bool>, at: Roles, gone: Shape, gone': Shape, x: Role)
    requires Returned(b1, b, at, gone) && Injective(at) && x in at
    requires forall y :: y in at ==> (Includes(gone', y) <==> Includes(gone, y) || y == x)
    ensures Returned(b1, b[at[x] := false], at, gone')
  {
    assert at[x] in at.Values;
  }

  /** What was claimed and then given back is as it was. */
  lemma AllReturned(b0: seq<bool>, b1: seq<bool>, b: seq<bool>, at: Roles, low: nat, s: Shape)
    requires Claims(b0, b1, at, low) && Shaped(at, s) && Returned(b1, b, at, s)
    ensures b == b0
  {
    forall p | 0 <= p < |b| ensures b[p] == b0[p] {
      if p in at.Values {
        var x :| x in at && at[x] == p;
      }
    }
  }

  /** Two address spaces share no page, whichever was built first. */
  lemma SpacesApart(b0: seq<bool>, b1: seq<bool>, b2: seq<bool>, at1: Roles, at2: Roles, low: nat)
    requires Claims(b0, b1, at1, low) && Claims(b1, b2, at2, low)
    ensures at1.Values !! at2.Values
  {
    forall p | p in at1.Values ensures p !in at2.Values {
      var x :| x in at1 && at1[x] == p;
      assert b1[p];
    }
  }

  // ---------------------------------------------------------------- regions: tables and the pages under them

  ghost predicate DirectedAt(m: Memory, at: Roles, kind: Kind, first: nat, t: nat) {
    Directory in at && TableOf(kind, t) in at && EntryIs(m, at[Directory], first + t, Entry(at[TableOf(kind, t)], 7))
  }

  /** Tables hang below the directory from entry `first` on; page `k` is mapped `skip` entries on in them. */
  ghost predicate Directed(m: Memory, at: Roles, kind: Kind, first: nat, tables: nat) {
    Directory in at && forall t: nat :: t < tables ==> DirectedAt(m, at, kind, first, t)
  }

  ghost predicate PageMapped(m: Memory, at: Roles, kind: Kind, skip: nat, k: nat) {
    && TableOf(kind, (skip + k) / 1024) in at && PageIn(kind, k) in at
    && EntryIs(m, at[TableOf(kind, (skip + k) / 1024)], (skip + k) % 1024, Entry(at[PageIn(kind, k)], 7))
  }

  ghost predicate Paged(m: Memory, at: Roles, kind: Kind, skip: nat, pages: nat) {
    forall k: nat :: k < pages ==> PageMapped(m, at, kind, skip, k)
  }

  /** Mapping one page more disturbs none before it. */
  lemma MapOne(m: Memory, at: Roles, kind: Kind, skip: nat, k: nat, p: nat)
    requires Injective(at) && Paged(m, at, kind, skip, k) && TableOf(kind, (skip + k) / 1024) in at
    requires PageIn(kind, k) !in at && p !in at.Values
    ensures var m' := StoreEntry(m, at[TableOf(kind, (skip + k) / 1024)], (skip + k) % 1024, Entry(p, 7));
            Paged(m', at[PageIn(kind, k) := p], kind, skip, k + 1)
  {
    var m' := StoreEntry(m, at[TableOf(kind, (skip + k) / 1024)], (skip + k) % 1024, Entry(p, 7));
    var at' := at[PageIn(kind, k) := p];
    forall i: nat | i < k + 1 ensures PageMapped(m', at', kind, skip, i) {
      if i < k {
        assert PageMapped(m, at, kind, skip, i);
        if (skip + i) / 1024 == (skip + k) / 1024 { assert (skip + i) % 1024 != (skip + k) % 1024; }
      }
    }
  }

  // ---------------------------------------------------------------- the whole layout

  /**
     The directory entries where the tables of the image and of the libraries start, where in its first table the image
     does, and the kernel's directory and the bound on its pages.
     */
  datatype Dims = Dims(first: nat, skip: nat, dllFirst: nat, kernel: nat, low: nat)

  ghost predicate Readable(m: Memory, at: Roles) {
    Directory in at && forall j: nat :: j < 1024 ==> HasEntry(m, at[Directory], j)
  }

  ghost predicate OsDirectedAt(m: Memory, at: Roles, i: nat) {
    Directory in at && OsTable(i) in at && EntryIs(m, at[Directory], i, Entry(at[OsTable(i)], 7))
  }

  /** The innermost eight pages are out of reach of user code. */
  ghost predicate StackMappedAt(m: Memory, at: Roles, from: nat, j: nat) {
    StackTable in at &&
    if j < from then EntryIs(m, at[StackTable], j, 2)
    else StackPage(j) in at && EntryIs(m, at[StackTable], j, Entry(at[StackPage(j)], if j < 1016 then 7 else 3))
  }

  ghost predicate StackMapped(m: Memory, at: Roles, from: nat) {
    StackTable in at && forall j: nat :: j < 1024 ==> StackMappedAt(m, at, from, j)
  }

  /** An entry of the kernel's half: the kernel's own page, open to user code for reading. */
  ghost predicate MirroredAt(m: Memory, at: Roles, kernel: nat, low: nat, i: nat, j: nat) {
    && kernel < low && KernelEntryKnown(m, kernel, low, i, j) && OsTable(i) in at
    && EntryIs(m, at[OsTable(i)], j, Entry(PageOf(KernelEntry(m, kernel, i, j)), 5))
  }

  ghost predicate Mirrored(m: Memory, at: Roles, kernel: nat, low: nat, n: nat) {
    forall i: nat, j: nat :: i < n && j < 1024 ==> MirroredAt(m, at, kernel, low, i, j)
  }

  ghost predicate Layout(m: Memory, at: Roles, s: Shape, d: Dims) {
    && Readable(m, at) && (forall i: nat :: i < s.os ==> OsDirectedAt(m, at, i))
    && Directed(m, at, Image, d.first, s.tables) && Paged(m, at, Image, d.skip, s.pages)
    && Directed(m, at, Dll, d.dllFirst, s.dllTables) && Paged(m, at, Dll, 0, s.dllPages)
    && (s.stackTable ==> StackMapped(m, at, s.stackFrom))
    && Mirrored(m, at, d.kernel, d.low, s.mirrored)
    && (forall x :: x in at ==> d.low <= at[x])
  }

  ghost predicate IsTable(x: Role) { x.Directory? || x.OsTable? || x.TableOf? || x.StackTable? }

  /** A page that is neither directory nor table may change, and be given a role. */
  lemma LayoutKept(m: Memory, m': Memory, at: Roles, at': Roles, s: Shape, d: Dims, p: nat)
    requires Layout(m, at, s, d) && OnlyPage(m, m', p)
    requires forall x :: x in at ==> x in at' && at'[x] == at[x]
    requires forall x :: x in at' ==> d.low <= at'[x]
    requires forall x :: x in at && IsTable(x) ==> at[x] != p
    requires d.low <= p
    ensures Layout(m', at', s, d)
  {
    assert IsTable(Directory) && IsTable(StackTable);
    forall i | OsTable(i) in at ensures at[OsTable(i)] != p { assert IsTable(OsTable(i)); }
    MirrorKept(m, m', at, at', d.kernel, d.low, s.mirrored, p);
    forall j: nat | j < 1024 ensures HasEntry(m', at[Directory], j) { assert HasEntry(m, at[Directory], j); }
    forall i: nat | i < s.os ensures OsDirectedAt(m', at', i) { assert OsDirectedAt(m, at, i); }
    DirectedKept(m, m', at, at', Image, d.first, s.tables, p);
    DirectedKept(m, m', at, at', Dll, d.dllFirst, s.dllTables, p);
    forall t | TableOf(Image, t) in at ensures at[TableOf(Image, t)] != p { assert IsTable(TableOf(Image, t)); }
    forall t | TableOf(Dll, t) in at ensures at[TableOf(Dll, t)] != p { assert IsTable(TableOf(Dll, t)); }
    PagedKept(m, m', at, at', Image, d.skip, s.pages, p);
    PagedKept(m, m', at, at', Dll, 0, s.dllPages, p);
    if s.stackTable { StackKept(m, m', at, at', s.stackFrom, p); }
  }

  lemma DirectedKept(m: Memory, m': Memory, at: Roles, at': Roles, kind: Kind, first: nat, tables: nat, p: nat)
    requires Directed(m, at, kind, first, tables) && OnlyPage(m, m', p) && at[Directory] != p
    requires forall x :: x in at ==> x in at' && at'[x] == at[x]
    ensures Directed(m', at', kind, first, tables)
  {
    forall t: nat | t < tables ensures DirectedAt(m', at', kind, first, t) {
      assert DirectedAt(m, at, kind, first, t);
    }
  }

  lemma PagedKept(m: Memory, m': Memory, at: Roles, at': Roles, kind: Kind, skip: nat, pages: nat, p: nat)
    requires Paged(m, at, kind, skip, pages) && OnlyPage(m, m', p)
    requires forall x :: x in at ==> x in at' && at'[x] == at[x]
    requires forall t :: TableOf(kind, t) in at ==> at[TableOf(kind, t)] != p
    ensures Paged(m', at', kind, skip, pages)
  {
    forall k: nat | k < pages ensures PageMapped(m', at', kind, skip, k) {
      assert PageMapped(m, at, kind, skip, k);
    }
  }

  lemma StackKept(m: Memory, m': Memory, at: Roles, at': Roles, from: nat, p: nat)
    requires StackMapped(m, at, from) && OnlyPage(m, m', p) && at[StackTable] != p
    requires forall x :: x in at ==> x in at' && at'[x] == at[x]
    ensures StackMapped(m', at', from)
  {
    forall j: nat | j < 1024 ensures StackMappedAt(m', at', from, j) {
      assert StackMappedAt(m, at, from, j);
    }
  }

  lemma MirrorKept(m: Memory, m': Memory, at: Roles, at': Roles, kernel: nat, low: nat, n: nat, p: nat)
    requires Mirrored(m, at, kernel, low, n) && OnlyPage(m, m', p) && low <= p
    requires forall x :: x in at ==> x in at' && at'[x] == at[x]
    requires forall i :: OsTable(i) in at ==> at[OsTable(i)] != p
    ensures Mirrored(m', at', kernel, low, n)
  {
    forall i: nat, j: nat | i < n && j < 1024 ensures MirroredAt(m', at', kernel, low, i, j) {
      assert MirroredAt(m, at, kernel, low, i, j);
    }
  }

  /** A directory entry that leads to no table yet may be set. */
  lemma DirectoryEntrySet(m: Memory, at: Roles, s: Shape, d: Dims, j: nat, v: nat)
    requires Layout(m, at, s, d) && Injective(at) && s.os <= j < 1024
    requires !(d.first <= j < d.first + s.tables) && !(d.dllFirst <= j < d.dllFirst + s.dllTables)
    ensures Layout(StoreEntry(m, at[Directory], j, v), at, s, d)
    ensures EntryIs(StoreEntry(m, at[Directory], j, v), at[Directory], j, v)
  {
    var m' := StoreEntry(m, at[Directory], j, v);
    forall i: nat | i < 1024 ensures HasEntry(m', at[Directory], i) { assert HasEntry(m, at[Directory], i); }
    forall i: nat | i < s.os ensures OsDirectedAt(m', at, i) { assert OsDirectedAt(m, at, i); }
    forall t: nat | t < s.tables ensures DirectedAt(m', at, Image, d.first, t) {
      assert DirectedAt(m, at, Image, d.first, t);
    }
    forall t: nat | t < s.dllTables ensures DirectedAt(m', at, Dll, d.dllFirst, t) {
      assert DirectedAt(m, at, Dll, d.dllFirst, t);
    }
    PagedKept(m, m', at, at, Image, d.skip, s.pages, at[Directory]);
    PagedKept(m, m', at, at, Dll, 0, s.dllPages, at[Directory]);
    if s.stackTable { StackKept(m, m', at, at, s.stackFrom, at[Directory]); }
    MirrorKept(m, m', at, at, d.kernel, d.low, s.mirrored, at[Directory]);
  }

  /** The next page of a region, new to the address space, goes where the tables say. */
  lemma PageSet(m: Memory, at: Roles, s: Shape, d: Dims, kind: Kind, p: nat)
    requires Layout(m, at, s, d) && Injective(at) && p !in at.Values && d.low <= p
    requires var skip, k := if kind.Image? then d.skip else 0, if kind.Image? then s.pages else s.dllPages;
             PageIn(kind, k) !in at && TableOf(kind, (skip + k) / 1024) in at
    ensures var skip, k := if kind.Image? then d.skip else 0, if kind.Image? then s.pages else s.dllPages;
            var m' := StoreEntry(m, at[TableOf(kind, (skip + k) / 1024)], (skip + k) % 1024, Entry(p, 7));
            Layout(m', at[PageIn(kind, k) := p], if kind.Image? then s.(pages := k + 1) else s.(dllPages := k + 1), d)
  {
    var skip, k := if kind.Image? then d.skip else 0, if kind.Image? then s.pages else s.dllPages;
    var table := at[TableOf(kind, (skip + k) / 1024)];
    var m', at' := StoreEntry(m, table, (skip + k) % 1024, Entry(p, 7)), at[PageIn(kind, k) := p];
    forall j: nat | j < 1024 ensures HasEntry(m', at[Directory], j) { assert HasEntry(m, at[Directory], j); }
    forall i: nat | i < s.os ensures OsDirectedAt(m', at', i) { assert OsDirectedAt(m, at, i); }
    DirectedKept(m, m', at, at', Image, d.first, s.tables, table);
    DirectedKept(m, m', at, at', Dll, d.dllFirst, s.dllTables, table);
    if kind.Image? {
      MapOne(m, at, Image, skip, k, p);
      PagedKept(m, m', at, at', Dll, 0, s.dllPages, table);
    } else {
      MapOne(m, at, Dll, skip, k, p);
      PagedKept(m, m', at, at', Image, d.skip, s.pages, table);
    }
    if s.stackTable { StackKept(m, m', at, at', s.stackFrom, table); }
    MirrorKept(m, m', at, at', d.kernel, d.low, s.mirrored, table);
  }

  /** The stack grows downwards by a page. */
  lemma StackPageSet(m: Memory, at: Roles, s: Shape, d: Dims, p: nat)
    requires Layout(m, at, s, d) && Injective(at) && p !in at.Values && d.low <= p && s.stackTable
    requires 0 < s.stackFrom <= 1024 && StackPage(s.stackFrom - 1) !in at
    ensures var j := s.stackFrom - 1;
            var m' := StoreEntry(m, at[StackTable], j, Entry(p, if j < 1016 then 7 else 3));
            Layout(m', at[StackPage(j) := p], s.(stackFrom := j), d)
  {
    var j := s.stackFrom - 1;
    var table := at[StackTable];
    var m', at' := StoreEntry(m, table, j, Entry(p, if j < 1016 then 7 else 3)), at[StackPage(j) := p];
    forall i: nat | i < 1024 ensures HasEntry(m', at[Directory], i) { assert HasEntry(m, at[Directory], i); }
    forall i: nat | i < s.os ensures OsDirectedAt(m', at', i) { assert OsDirectedAt(m, at, i); }
    DirectedKept(m, m', at, at', Image, d.first, s.tables, table);
    DirectedKept(m, m', at, at', Dll, d.dllFirst, s.dllTables, table);
    PagedKept(m, m', at, at', Image, d.skip, s.pages, table);
    PagedKept(m, m', at, at', Dll, 0, s.dllPages, table);
    MirrorKept(m, m', at, at', d.kernel, d.low, s.mirrored, table);
    forall i: nat | i < 1024 ensures StackMappedAt(m', at', j, i) { assert StackMappedAt(m, at, s.stackFrom, i); }
  }

  /** The table that comes next in the shape, and its directory entry. */
  predicate NextTable(s: Shape, s': Shape, d: Dims, x: Role, index: nat) {
    match x
    case OsTable(i) => i == s.os == index && s.tables == 0 && s.dllTables == 0 && s' == s.(os := i + 1) && i < d.first
    case TableOf(kind, i) =>
      && s.os <= d.first
      && if kind.Image? then
           i == s.tables && index == d.first + i && s.dllTables == 0 && s' == s.(tables := i + 1)
         else
           && i == s.dllTables && index == d.dllFirst + i && s' == s.(dllTables := i + 1)
           && d.first + s.tables <= d.dllFirst
    case _ => false
  }

  lemma TableAdded(m: Memory, m1: Memory, at: Roles, s: Shape, s': Shape, d: Dims, x: Role, p: nat, index: nat)
    requires Layout(m, at, s, d) && Shaped(at, s) && Injective(at[x := p]) && p !in at.Values && d.low <= p
    requires OnlyPage(m, m1, p) && NextTable(s, s', d, x, index) && index < 1024
    ensures Layout(StoreEntry(m1, at[Directory], index, Entry(p, 7)), at[x := p], s', d) && Shaped(at[x := p], s')
  {
    var at' := at[x := p];
    LayoutKept(m, m1, at, at', s, d, p);
    DirectoryEntrySet(m1, at', s, d, index, Entry(p, 7));
    var m2 := StoreEntry(m1, at[Directory], index, Entry(p, 7));
    forall i: nat | i < s'.os ensures OsDirectedAt(m2, at', i) {
      if i < s.os { assert OsDirectedAt(m2, at', i); }
    }
    forall t: nat | t < s'.tables ensures DirectedAt(m2, at', Image, d.first, t) {
      if t < s.tables { assert DirectedAt(m2, at', Image, d.first, t); }
    }
    forall t: nat | t < s'.dllTables ensures DirectedAt(m2, at', Dll, d.dllFirst, t) {
      if t < s.dllTables { assert DirectedAt(m2, at', Dll, d.dllFirst, t); }
    }
  }

  lemma StackTableAdded(m: Memory, m': Memory, at: Roles, s: Shape, d: Dims, p: nat)
    requires Layout(m, at, s, d) && Shaped(at, s) && p !in at.Values && d.low <= p && OnlyPage(m, m', p)
    requires !s.stackTable && s.stackFrom == 1024 && forall j: nat :: j < 1024 ==> EntryIs(m', p, j, 2)
    ensures Layout(m', at[StackTable := p], s.(stackTable := true), d)
    ensures Shaped(at[StackTable := p], s.(stackTable := true))
  {
    var at' := at[StackTable := p];
    LayoutKept(m, m', at, at', s, d, p);
    forall j: nat | j < 1024 ensures StackMappedAt(m', at', 1024, j) { assert EntryIs(m', p, j, 2); }
  }

  /** The table named by the directory entry is the one the next page belongs to. */
  lemma PageAdded(m: Memory, at: Roles, s: Shape, s': Shape, d: Dims, kind: Kind, k: nat, skip: nat, p: nat,
                  index: nat, j: nat)
    requires Layout(m, at, s, d) && Shaped(at, s) && Injective(at) && p !in at.Values && d.low <= p
    requires if kind.Image? then k == s.pages && skip == d.skip && s' == s.(pages := k + 1)
             else k == s.dllPages && skip == 0 && s' == s.(dllPages := k + 1)
    requires (skip + k) / 1024 < if kind.Image? then s.tables else s.dllTables
    requires index == (skip + k) / 1024 + (if kind.Image? then d.first else d.dllFirst) && j == (skip + k) % 1024
    ensures HasEntry(m, at[Directory], index) && d.low <= PageOf(LoadEntry(m, at[Directory], index))
    ensures var table := PageOf(LoadEntry(m, at[Directory], index));
            Layout(StoreEntry(m, table, j, Entry(p, 7)), at[PageIn(kind, k) := p], s', d)
    ensures Shaped(at[PageIn(kind, k) := p], s')
  {
    var t := (skip + k) / 1024;
    assert DirectedAt(m, at, kind, if kind.Image? then d.first else d.dllFirst, t);
    FlagsDropped(at[TableOf(kind, t)], 7);
    PageSet(m, at, s, d, kind, p);
  }

  /** The directory entry for library page `k` names a table, no page of the image. */
  lemma TableNamed(m: Memory, at: Roles, s: Shape, d: Dims, k: nat, index: nat)
    requires Layout(m, at, s, d) && Injective(at) && k / 1024 < s.dllTables && index == d.dllFirst + k / 1024
    ensures HasEntry(m, at[Directory], index)
    ensures var pte := PageOf(LoadEntry(m, at[Directory], index));
            forall i: nat :: PageIn(Image, i) in at ==> at[PageIn(Image, i)] != pte
  {
    assert DirectedAt(m, at, Dll, d.dllFirst, k / 1024);
    FlagsDropped(at[TableOf(Dll, k / 1024)], 7);
  }

  lemma StackPageAdded(m: Memory, at: Roles, s: Shape, s': Shape, d: Dims, p: nat, j: nat, v: nat)
    requires Layout(m, at, s, d) && Shaped(at, s) && Injective(at) && p !in at.Values && d.low <= p && s.stackTable
    requires j + 1 == s.stackFrom <= 1024 == s.stackTo && s' == s.(stackFrom := j)
    requires v == Entry(p, if j < 1016 then 7 else 3)
    ensures Layout(StoreEntry(m, at[StackTable], j, v), at[StackPage(j) := p], s', d)
    ensures Shaped(at[StackPage(j) := p], s')
  {
    StackPageSet(m, at, s, d, p);
  }

  predicate EntryNames(m: Memory, p: nat, j: nat, page: nat) { HasEntry(m, p, j) && PageOf(LoadEntry(m, p, j)) == page }

  ghost predicate MirroredRow(m: Memory, at: Roles, kernel: nat, low: nat, i: nat, n: nat) {
    forall j: nat :: j < n ==> MirroredAt(m, at, kernel, low, i, j)
  }

  lemma RowStep(m: Memory, m': Memory, at: Roles, kernel: nat, low: nat, i: nat, j: nat, v: nat)
    requires MirroredRow(m, at, kernel, low, i, j) && OsTable(i) in at && low <= at[OsTable(i)] && kernel < low
    requires KernelEntryKnown(m, kernel, low, i, j) && v == Entry(PageOf(KernelEntry(m, kernel, i, j)), 5)
    requires m' == StoreEntry(m, at[OsTable(i)], j, v)
    ensures MirroredRow(m', at, kernel, low, i, j + 1)
  {
    forall k: nat | k < j + 1 ensures MirroredAt(m', at, kernel, low, i, k) {
      if k < j { assert MirroredAt(m, at, kernel, low, i, k); }
    }
  }

  /** A table of the kernel's half that does not count as mirrored yet may be written. */
  lemma MirrorEntrySet(m: Memory, at: Roles, s: Shape, d: Dims, i: nat, j: nat, v: nat)
    requires Layout(m, at, s, d) && Injective(at) && OsTable(i) in at && s.mirrored <= i
    ensures Layout(StoreEntry(m, at[OsTable(i)], j, v), at, s, d)
  {
    var table := at[OsTable(i)];
    var m' := StoreEntry(m, table, j, v);
    forall k: nat | k < 1024 ensures HasEntry(m', at[Directory], k) { assert HasEntry(m, at[Directory], k); }
    forall k: nat | k < s.os ensures OsDirectedAt(m', at, k) { assert OsDirectedAt(m, at, k); }
    DirectedKept(m, m', at, at, Image, d.first, s.tables, table);
    DirectedKept(m, m', at, at, Dll, d.dllFirst, s.dllTables, table);
    PagedKept(m, m', at, at, Image, d.skip, s.pages, table);
    PagedKept(m, m', at, at, Dll, 0, s.dllPages, table);
    if s.stackTable { StackKept(m, m', at, at, s.stackFrom, table); }
    forall k: nat, l: nat | k < s.mirrored && l < 1024 ensures MirroredAt(m', at, d.kernel, d.low, k, l) {
      assert MirroredAt(m, at, d.kernel, d.low, k, l);
    }
  }

  // ---------------------------------------------------------------- translation

  /** The page table entry for a virtual address can be read, or the directory says there is none. */
  predicate Walkable(m: Memory, directory: nat, v: nat) {
    && HasEntry(m, directory, v / 0x40_0000 % 1024)
    && var e := LoadEntry(m, directory, v / 0x40_0000 % 1024);
       Present(e) ==> HasEntry(m, PageOf(e), v / 0x1000 % 1024)
  }

  function GetFlatAddress(m: Memory, directory: nat, v: nat): nat
    requires Walkable(m, directory, v)
  {
    var e := LoadEntry(m, directory, v / 0x40_0000 % 1024);
    if !Present(e) then 0
    else
      var p := LoadEntry(m, PageOf(e), v / 0x1000 % 1024);
      if !Present(p) then 0 else PageOf(p) * 4096 + v % 0x1000
  }

  /** Where either level says that nothing is there, an address translates to zero; any other to a place in its page. */
  lemma FlatAddressOf(m: Memory, directory: nat, v: nat)
    requires Walkable(m, directory, v)
    ensures var e := LoadEntry(m, directory, v / 0x40_0000 % 1024);
            if e % 2 == 0 then GetFlatAddress(m, directory, v) == 0
            else
              HasEntry(m, e / 4096, v / 0x1000 % 1024) &&
              var p := LoadEntry(m, e / 4096, v / 0x1000 % 1024);
              GetFlatAddress(m, directory, v) == if p % 2 == 0 then 0 else p - p % 4096 + v % 4096
  {
  }

  lemma FlagsDropped(page: nat, flags: nat)
    requires flags < 4096 && flags % 2 == 1
    ensures Present(Entry(page, flags)) && PageOf(Entry(page, flags)) == page
  {
  }

  lemma Translated(m: Memory, directory: nat, v: nat, table: nat, page: nat, flags: nat)
    requires EntryIs(m, directory, v / 0x40_0000 % 1024, Entry(table, 7))
    requires EntryIs(m, table, v / 0x1000 % 1024, Entry(page, flags))
    requires flags < 4096 && flags % 2 == 1
    ensures Walkable(m, directory, v) && GetFlatAddress(m, directory, v) == page * 4096 + v % 0x1000
  {
    FlagsDropped(table, 7);
    FlagsDropped(page, flags);
  }

  /** Where the words that map byte `k` of the image stand in the two levels. */
  lemma ImageIndices(base: nat, k: nat, first: nat, skip: nat, pages: nat, tables: nat)
    requires base % 4096 == 0 && first == 32 + base / 4096 / 1024 && skip == base / 4096 % 1024
    requires k / 4096 < pages && (skip + pages - 1) / 1024 < tables && first + tables <= 1024
    ensures var v, i := PROCESS_BASE + base + k, k / 4096;
            && v / 0x40_0000 % 1024 == first + (skip + i) / 1024
            && v / 0x1000 % 1024 == (skip + i) % 1024 && v % 0x1000 == k % 4096
            && (skip + i) / 1024 < tables
  {
    var i := k / 4096;
    var a := 0x8000 + base / 4096 + i;
    assert PROCESS_BASE + base + k == a * 0x1000 + k % 4096;
    assert a == 1024 * first + skip + i;
  }

  /** Byte `k` of the image, found through the two levels, is byte `k % 4096` of its page. */
  lemma ImageTranslated(m: Memory, at: Roles, s: Shape, d: Dims, base: nat, k: nat)
    requires Layout(m, at, s, d) && base % 4096 == 0 && k / 4096 < s.pages
    requires d.first == 32 + base / 4096 / 1024 && d.skip == base / 4096 % 1024 && d.first + s.tables <= 1024
    requires (d.skip + s.pages - 1) / 1024 < s.tables
    ensures var v := PROCESS_BASE + base + k;
            && Walkable(m, at[Directory], v) && PageIn(Image, k / 4096) in at
            && GetFlatAddress(m, at[Directory], v) == at[PageIn(Image, k / 4096)] * 4096 + k % 4096
  {
    var i := k / 4096;
    var t := (d.skip + i) / 1024;
    ImageIndices(base, k, d.first, d.skip, s.pages, s.tables);
    assert PageMapped(m, at, Image, d.skip, i);
    assert DirectedAt(m, at, Image, d.first, t);
    Translated(m, at[Directory], PROCESS_BASE + base + k, at[TableOf(Image, t)], at[PageIn(Image, i)], 7);
  }

  /**
     Below the process an address leads to the page the kernel's entry names: where the kernel maps it, to the same
     place; where the kernel's entry is not present, to that page all the same.
     */
  lemma KernelTranslated(m: Memory, at: Roles, s: Shape, d: Dims, v: nat)
    requires Layout(m, at, s, d) && v < PROCESS_BASE && s.os == s.mirrored == 32
    ensures KernelEntryKnown(m, d.kernel, d.low, v / 0x40_0000, v / 0x1000 % 1024) && Walkable(m, at[Directory], v)
    ensures GetFlatAddress(m, at[Directory], v) ==
            PageOf(KernelEntry(m, d.kernel, v / 0x40_0000, v / 0x1000 % 1024)) * 4096 + v % 0x1000
    ensures Walkable(m, d.kernel, v) && GetFlatAddress(m, d.kernel, v) != 0 ==>
              GetFlatAddress(m, at[Directory], v) == GetFlatAddress(m, d.kernel, v)
  {
    var i, j := v / 0x40_0000, v / 0x1000 % 1024;
    assert i < 32 && i % 1024 == i;
    assert OsDirectedAt(m, at, i) && MirroredAt(m, at, d.kernel, d.low, i, j);
    Translated(m, at[Directory], v, at[OsTable(i)], PageOf(KernelEntry(m, d.kernel, i, j)), 5);
  }

  /** Byte `j` of library page `k`. */
  function DLLAddress(dllFirst: nat, k: nat, j: nat): nat { (dllFirst * 1024 + k) * 4096 + j }

  lemma DLLTranslated(m: Memory, at: Roles, s: Shape, d: Dims, k: nat, j: nat)
    requires Layout(m, at, s, d) && k < s.dllPages && (s.dllPages - 1) / 1024 < s.dllTables
    requires d.dllFirst + s.dllTables <= 1024 && j < 4096
    ensures var v := DLLAddress(d.dllFirst, k, j);
            && Walkable(m, at[Directory], v) && PageIn(Dll, k) in at
            && GetFlatAddress(m, at[Directory], v) == at[PageIn(Dll, k)] * 4096 + j
  {
    var a := d.dllFirst * 1024 + k;
    IndexOf(a, j);
    assert PageMapped(m, at, Dll, 0, k);
    assert DirectedAt(m, at, Dll, d.dllFirst, k / 1024);
    Translated(m, at[Directory], DLLAddress(d.dllFirst, k, j), at[TableOf(Dll, k / 1024)], at[PageIn(Dll, k)], 7);
  }

  lemma IndexOf(a: nat, j: nat)
    requires j < 0x1000
    ensures (a * 0x1000 + j) / 0x1000 == a && (a * 0x1000 + j) % 0x1000 == j
    ensures (a * 0x1000 + j) / 0x40_0000 == a / 1024
  {
  }

  // ---------------------------------------------------------------- the image

  /** Page `p` starts with the `size` bytes of the image from `offset` on. */
  ghost predicate Holds(m: Memory, p: nat, image: seq<nat>, offset: nat, size: nat)
    requires offset + size <= |image|
  {
    forall k: nat :: offset <= k < offset + size ==> ByteIs(m, p, k - offset, image[k])
  }

  ghost predicate CopiedAt(m: Memory, at: Roles, image: seq<nat>, k: nat)
    requires k < |image|
  {
    PageIn(Image, k / 4096) in at && ByteIs(m, at[PageIn(Image, k / 4096)], k % 4096, image[k])
  }

  ghost predicate Copied(m: Memory, at: Roles, image: seq<nat>, n: nat)
    requires n <= |image|
  {
    forall k: nat :: k < n ==> CopiedAt(m, at, image, k)
  }

  ghost predicate SameImagePage(m: Memory, m': Memory, at: Roles, at': Roles, i: nat) {
    PageIn(Image, i) in at ==>
      var p := at[PageIn(Image, i)];
      PageIn(Image, i) in at' && at'[PageIn(Image, i)] == p && (p in m ==> p in m' && m'[p] == m[p])
  }

  /** No page of the image has changed or changed its place. */
  ghost predicate KeepsImage(m: Memory, m': Memory, at: Roles, at': Roles) {
    forall i: nat :: SameImagePage(m, m', at, at', i)
  }

  lemma KeptTwice(m0: Memory, m1: Memory, m2: Memory, at0: Roles, at1: Roles, at2: Roles)
    requires KeepsImage(m0, m1, at0, at1) && KeepsImage(m1, m2, at1, at2)
    ensures KeepsImage(m0, m2, at0, at2)
  {
    forall i: nat ensures SameImagePage(m0, m2, at0, at2, i) {
      assert SameImagePage(m0, m1, at0, at1, i) && SameImagePage(m1, m2, at1, at2, i);
    }
  }

  /** A store outside the image keeps it. */
  lemma KeptByStore(m: Memory, at: Roles, at': Roles, p: nat, j: nat, v: nat)
    requires forall x :: x in at ==> x in at' && at'[x] == at[x]
    requires forall i: nat :: PageIn(Image, i) in at ==> at[PageIn(Image, i)] != p
    ensures KeepsImage(m, StoreEntry(m, p, j, v), at, at')
  {
    forall i: nat ensures SameImagePage(m, StoreEntry(m, p, j, v), at, at', i) {}
  }

  lemma CopiedKept(m: Memory, m': Memory, at: Roles, at': Roles, image: seq<nat>, n: nat)
    requires n <= |image| && Copied(m, at, image, n) && KeepsImage(m, m', at, at')
    ensures Copied(m', at', image, n)
  {
    forall k: nat | k < n ensures CopiedAt(m', at', image, k) {
      assert CopiedAt(m, at, image, k) && SameImagePage(m, m', at, at', k / 4096);
    }
  }

  lemma PageCopied(m: Memory, m': Memory, at: Roles, image: seq<nat>, i: nat, size: nat)
    requires i * 4096 + size <= |image| && size <= 4096 && Copied(m, at, image, i * 4096) && Injective(at)
    requires PageIn(Image, i) in at && OnlyPage(m, m', at[PageIn(Image, i)])
    requires Holds(m', at[PageIn(Image, i)], image, i * 4096, size)
    ensures Copied(m', at, image, i * 4096 + size)
  {
    forall k: nat | k < i * 4096 + size ensures CopiedAt(m', at, image, k) {
      if k < i * 4096 {
        assert CopiedAt(m, at, image, k);
      } else {
        assert k / 4096 == i && k % 4096 == k - i * 4096;
        assert ByteIs(m', at[PageIn(Image, i)], k - i * 4096, image[k]);
      }
    }
  }

  /** A process that reads an address of its image reads that byte of the file. */
  lemma ImageReadBack(m: Memory, at: Roles, s: Shape, d: Dims, base: nat, image: seq<nat>, k: nat)
    requires Layout(m, at, s, d) && base % 4096 == 0 && |image| > 0 && s.pages == GetProcessSizeInPages(|image|)
    requires d.first == 32 + base / 4096 / 1024 && d.skip == base / 4096 % 1024 && d.first + s.tables <= 1024
    requires s.tables == GetPTESizeInPages(s.pages + d.skip)
    requires Copied(m, at, image, |image|) && k < |image|
    ensures Walkable(m, at[Directory], PROCESS_BASE + base + k)
    ensures var flat := GetFlatAddress(m, at[Directory], PROCESS_BASE + base + k);
            ByteIs(m, flat / 4096, flat % 4096, image[k])
  {
    ImageTranslated(m, at, s, d, base, k);
    assert CopiedAt(m, at, image, k);
  }

  // ---------------------------------------------------------------- what a process finds at its addresses

  ghost predicate ImageByteAt(m: Memory, directory: nat, base: nat, image: seq<nat>, k: nat)
    requires k < |image|
  {
    var v := PROCESS_BASE + base + k;
    && Walkable(m, directory, v)
    && var flat := GetFlatAddress(m, directory, v); ByteIs(m, flat / 4096, flat % 4096, image[k])
  }

  /** Byte `j` of library page `k`, the pages of all libraries following one another from `load` on. */
  ghost predicate LibraryByteAt(m: Memory, at: Roles, directory: nat, load: nat, k: nat, j: nat) {
    var v := load + 4096 * k + j;
    && Walkable(m, directory, v) && PageIn(Dll, k) in at
    && GetFlatAddress(m, directory, v) == at[PageIn(Dll, k)] * 4096 + j
  }

  /** Where the kernel has something below the process, the process finds the same. */
  ghost predicate KernelByteAt(m: Memory, directory: nat, kernel: nat, v: nat) {
    && Walkable(m, directory, v)
    && (Walkable(m, kernel, v) && GetFlatAddress(m, kernel, v) != 0 ==>
          GetFlatAddress(m, directory, v) == GetFlatAddress(m, kernel, v))
  }

  /** The image is at its base, the libraries behind it, and the kernel below. */
  ghost predicate AllFound(m: Memory, at: Roles, directory: nat, kernel: nat, base: nat, image: seq<nat>, load: nat,
                           pages: nat)
  {
    && (forall k: nat :: k < |image| ==> ImageByteAt(m, directory, base, image, k))
    && (forall k: nat, j: nat :: k < pages && j < 4096 ==> LibraryByteAt(m, at, directory, load, k, j))
    && (forall v: nat :: v < PROCESS_BASE ==> KernelByteAt(m, directory, kernel, v))
  }

  lemma FoundInLayout(m: Memory, at: Roles, s: Shape, d: Dims, base: nat, image: seq<nat>)
    requires Layout(m, at, s, d) && base % 4096 == 0 && |image| > 0 && s.pages == GetProcessSizeInPages(|image|)
    requires d.first == 32 + base / 4096 / 1024 && d.skip == base / 4096 % 1024 && d.first + s.tables <= 1024
    requires s.tables == GetPTESizeInPages(s.pages + d.skip) && s.os == s.mirrored == 32
    requires s.dllTables == TablesOf(s.dllPages) && d.dllFirst + s.dllTables <= 1024
    requires Copied(m, at, image, |image|)
    ensures AllFound(m, at, at[Directory], d.kernel, base, image, d.dllFirst * 0x40_0000, s.dllPages) == true
  {
    var load := d.dllFirst * 0x40_0000;
    forall k: nat | k < |image| ensures ImageByteAt(m, at[Directory], base, image, k) {
      ImageReadBack(m, at, s, d, base, image, k);
    }
    forall k: nat, j: nat | k < s.dllPages && j < 4096 ensures LibraryByteAt(m, at, at[Directory], load, k, j) {
      DLLTranslated(m, at, s, d, k, j);
      assert DLLAddress(d.dllFirst, k, j) == load + 4096 * k + j;
    }
    forall v: nat | v < PROCESS_BASE ensures KernelByteAt(m, at[Directory], d.kernel, v) {
      KernelTranslated(m, at, s, d, v);
    }
  }

  // ---------------------------------------------------------------- who may do what

  predicate MayWrite(entry: nat) { entry / 2 % 2 == 1 }

  predicate UserMay(entry: nat) { entry / 4 % 2 == 1 }

  lemma RightsOf(page: nat, flags: nat)
    requires flags < 8
    ensures Present(Entry(page, flags)) == (flags % 2 == 1) && MayWrite(Entry(page, flags)) == (flags / 2 % 2 == 1)
    ensures UserMay(Entry(page, flags)) == (flags / 4 % 2 == 1)
  {
    LowBits(512 * page, flags);
    assert 8 * (512 * page) + flags == Entry(page, flags);
  }

  lemma LowBits(q: nat, f: nat)
    requires f < 8
    ensures var e := 8 * q + f; e % 2 == f % 2 && e / 2 % 2 == f / 2 % 2 && e / 4 % 2 == f / 4 % 2
  {
    var g := f / 2;
    Halved(4 * q + g, f % 2);
    Halved(2 * q + g / 2, g % 2);
    Halved(q, g / 2);
    assert 8 * q + f == 2 * (4 * q + g) + f % 2 && 4 * q + g == 2 * (2 * q + g / 2) + g % 2;
    Quartered(8 * q + f);
    Quartered(f);
  }

  lemma Halved(h: nat, b: nat)
    requires b < 2
    ensures (2 * h + b) / 2 == h && (2 * h + b) % 2 == b
  {
  }

  lemma Quartered(e: nat)
    ensures e / 4 == e / 2 / 2
  {
  }

  /** User code may write its image, its libraries and its stack, may read the kernel's half, and not reach the rest. */
  lemma RightsInLayout(m: Memory, at: Roles, s: Shape, d: Dims, i: nat, j: nat)
    requires Layout(m, at, s, d) && s.stackTable && s.stackTo == 1024 && j < 1024
    ensures i < s.mirrored ==>
              && OsTable(i) in at && HasEntry(m, at[OsTable(i)], j)
              && var e := LoadEntry(m, at[OsTable(i)], j); Present(e) && UserMay(e) && !MayWrite(e)
    ensures i < s.pages ==>
              var t, l := TableOf(Image, (d.skip + i) / 1024), (d.skip + i) % 1024;
              && t in at && HasEntry(m, at[t], l)
              && var e := LoadEntry(m, at[t], l); Present(e) && UserMay(e) && MayWrite(e)
    ensures i < s.dllPages ==>
              var t := TableOf(Dll, i / 1024);
              && t in at && HasEntry(m, at[t], i % 1024)
              && var e := LoadEntry(m, at[t], i % 1024); Present(e) && UserMay(e) && MayWrite(e)
    ensures HasEntry(m, at[StackTable], j)
    ensures var e := LoadEntry(m, at[StackTable], j);
            if j < s.stackFrom then !Present(e) else Present(e) && MayWrite(e) && (UserMay(e) <==> j < 1016)
  {
    if i < s.mirrored {
      assert MirroredAt(m, at, d.kernel, d.low, i, j);
      RightsOf(PageOf(KernelEntry(m, d.kernel, i, j)), 5);
    }
    if i < s.pages {
      assert PageMapped(m, at, Image, d.skip, i);
      RightsOf(at[PageIn(Image, i)], 7);
    }
    if i < s.dllPages {
      assert PageMapped(m, at, Dll, 0, i);
      RightsOf(at[PageIn(Dll, i)], 7);
    }
    assert StackMappedAt(m, at, s.stackFrom, j);
    if j >= s.stackFrom { RightsOf(at[StackPage(j)], if j < 1016 then 7 else 3); }
  }

  // ---------------------------------------------------------------- the page bitmap

  class MemManager {
    /** Set for a page in use; thirty-two to a word. */
    const pageMap: array<bool>
    /** The words set aside for the kernel. */
    const resvSize: nat
    const kernelDirectory: nat
    var memory: Memory

    ghost predicate Valid() reads this, pageMap {
      && pageMap.Length % 32 == 0 && 0 < resvSize && resvSize * 32 <= pageMap.Length <= 0x10_0000
      && KernelMapped(memory, kernelDirectory, resvSize * 32)
    }

    constructor (words: nat, reserved: nat, directory: nat, contents: Memory)
      requires 0 < reserved <= words <= 0x8000
      requires KernelMapped(contents, directory, reserved * 32)
      ensures Valid() && fresh(pageMap) && resvSize == reserved && pageMap.Length == words * 32
    {
      pageMap := new bool[words * 32](k => k < reserved * 32);
      resvSize, kernelDirectory, memory := reserved, directory, contents;
    }

    predicate WordFull(pos: nat)
      requires pos * 32 + 32 <= pageMap.Length
      reads this, pageMap
    {
      forall p :: pos * 32 <= p < pos * 32 + 32 ==> pageMap[p]
    }

    /** The first free page above the kernel's. */
    method AllocatePhysicalPage() returns (ok: bool, page: nat)
      requires Valid()
      modifies pageMap
      ensures Valid()
      ensures ok <==> FreePages(old(pageMap[..]), resvSize * 32) != {}
      ensures ok ==> page in FreePages(old(pageMap[..]), resvSize * 32) && pageMap[..] == old(pageMap[..])[page := true]
      ensures ok ==> forall p :: p in FreePages(old(pageMap[..]), resvSize * 32) ==> page <= p
      ensures !ok ==> pageMap[..] == old(pageMap[..])
    {
      ghost var was := pageMap[..];
      var pos := resvSize;
      while pos < pageMap.Length / 32
        invariant resvSize <= pos <= pageMap.Length / 32 && pageMap[..] == was
        invariant forall p :: resvSize * 32 <= p < pos * 32 ==> was[p]
      {
        if !WordFull(pos) {
          var off := 0;
          while off < 32
            invariant off <= 32 && pageMap[..] == was
            invariant forall p :: resvSize * 32 <= p < pos * 32 + off ==> was[p]
          {
            if !pageMap[pos * 32 + off] {
              page := pos * 32 + off;
              pageMap[page] := true;
              assert page in FreePages(was, resvSize * 32);
              return true, page;
            }
            off := off + 1;
          }
        }
        pos := pos + 1;
      }
      return false, 0;
    }

    /** Only a page in use is ever given back. */
    method DeAllocatePhysicalPage(page: nat)
      requires Valid() && page < pageMap.Length && pageMap[page]
      modifies pageMap
      ensures Valid() && pageMap[..] == old(pageMap[..])[page := false]
    {
      pageMap[page] := false;
    }

    /** Only pages above the kernel's are written. */
    method SetEntry(page: nat, j: nat, v: nat)
      requires Valid() && page >= resvSize * 32
      modifies `memory
      ensures Valid() && memory == StoreEntry(old(memory), page, j, v)
    {
      KernelKept(memory, StoreEntry(memory, page, j, v), kernelDirectory, resvSize * 32, page);
      memory := StoreEntry(memory, page, j, v);
    }

    method CopyBytes(page: nat, image: seq<nat>, offset: nat, size: nat)
      requires Valid() && page >= resvSize * 32 && offset + size <= |image|
      modifies `memory
      ensures Valid() && OnlyPage(old(memory), memory, page) && Holds(memory, page, image, offset, size)
    {
      ghost var was := memory;
      for j := 0 to size
        invariant OnlyPage(was, memory, page) && Holds(memory, page, image, offset, j)
      {
        ghost var before := memory;
        memory := StoreByte(memory, page, j, image[offset + j]);
        forall k: nat | offset <= k < offset + j + 1 ensures ByteIs(memory, page, k - offset, image[k]) {
          if k < offset + j { assert ByteIs(before, page, k - offset, image[k]); }
        }
      }
      KernelKept(was, memory, kernelDirectory, resvSize * 32, page);
    }

    /** A table of entries that are not present. */
    method BlankTable(page: nat)
      requires Valid() && page >= resvSize * 32
      modifies `memory
      ensures Valid() && OnlyPage(old(memory), memory, page)
      ensures forall j: nat :: j < 1024 ==> EntryIs(memory, page, j, 2)
    {
      ghost var was := memory;
      for j := 0 to 1024
        invariant OnlyPage(was, memory, page)
        invariant forall i: nat :: i < j ==> EntryIs(memory, page, i, 2)
      {
        ghost var before := memory;
        memory := StoreEntry(memory, page, j, 2);
        forall i: nat | i < j + 1 ensures EntryIs(memory, page, i, 2) {
          if i < j { assert EntryIs(before, page, i, 2); }
        }
      }
      KernelKept(was, memory, kernelDirectory, resvSize * 32, page);
    }
  }

  // ---------------------------------------------------------------- a user process

  function GetProcessSizeInPages(bytes: nat): nat
    requires bytes > 0
  {
    (bytes - 1) / 4096 + 1
  }

  function GetPTESizeInPages(pages: nat): nat
    requires pages > 0
  {
    (pages - 1) / 1024 + 1
  }

  /** As many pages as hold the bytes, and no fewer. */
  lemma PagesLeast(bytes: nat)
    requires bytes > 0
    ensures var n := GetProcessSizeInPages(bytes); n > 0 && 4096 * (n - 1) < bytes <= 4096 * n
  {
  }

  /** As many tables as map the pages, and no fewer. */
  lemma TablesLeast(pages: nat)
    ensures pages > 0 ==> GetPTESizeInPages(pages) == TablesOf(pages)
    ensures var n := TablesOf(pages); pages <= 1024 * n && (n > 0 ==> 1024 * (n - 1) < pages)
  {
  }

  lemma SlotOf(i: nat, k: nat)
    requires k < 1024
    ensures (i * 1024 + k) / 1024 == i && (i * 1024 + k) % 1024 == k
  {
  }

  lemma TablesFor(total: nat, n: nat)
    requires n > 0
    ensures var tables := GetPTESizeInPages(total + n);
            (total + 1023) / 1024 <= tables == (total + n + 1023) / 1024 && (total + n - 1) / 1024 < tables
  {
  }

  function Least(a: nat, b: nat): nat { if a < b then a else b }

  // ---------------------------------------------------------------- libraries, one behind the other

  function Total(libraries: seq<nat>): nat {
    if libraries == [] then 0 else Total(libraries[..|libraries| - 1]) + libraries[|libraries| - 1]
  }

  function TablesOf(pages: nat): nat { (pages + 1023) / 1024 }

  predicate AllMapped(libraries: seq<nat>) {
    forall i :: 0 <= i < |libraries| ==> libraries[i] > 0
  }

  function WithLibrary(s: Shape, n: nat): Shape {
    s.(dllTables := TablesOf(s.dllPages + n), dllPages := s.dllPages + n)
  }

  function WithLibraries(s: Shape, libraries: seq<nat>): Shape {
    if libraries == [] then s
    else WithLibrary(WithLibraries(s, libraries[..|libraries| - 1]), libraries[|libraries| - 1])
  }

  /** Each library starts where the one before it ends. */
  ghost predicate LoadedAt(dllFirst: nat, libraries: seq<nat>, loads: seq<nat>) {
    && |loads| == |libraries|
    && forall i :: 0 <= i < |loads| ==> loads[i] == DLLAddress(dllFirst, Total(libraries[..i]), 0)
  }

  lemma LoadedOneMore(dllFirst: nat, libraries: seq<nat>, i: nat, loads: seq<nat>, load: nat)
    requires i < |libraries| && LoadedAt(dllFirst, libraries[..i], loads)
    requires load == DLLAddress(dllFirst, Total(libraries[..i]), 0)
    ensures LoadedAt(dllFirst, libraries[..i + 1], loads + [load])
  {
    forall k | 0 <= k <= i ensures libraries[..i + 1][..k] == libraries[..k] {}
    forall k | 0 <= k < i ensures libraries[..i][..k] == libraries[..k] {}
  }

  lemma {:induction false} LibraryShape(s: Shape, libraries: seq<nat>)
    requires s.dllTables == s.dllPages == 0
    ensures WithLibraries(s, libraries) == s.(dllTables := TablesOf(Total(libraries)), dllPages := Total(libraries))
  {
    if libraries != [] { LibraryShape(s, libraries[..|libraries| - 1]); }
  }

  lemma {:induction false} TotalGrows(libraries: seq<nat>, i: nat)
    requires i <= |libraries|
    ensures Total(libraries[..i]) <= Total(libraries)
  {
    if i < |libraries| {
      var less := libraries[..|libraries| - 1];
      TotalGrows(less, i);
      assert less[..i] == libraries[..i];
    } else {
      assert libraries[..i] == libraries;
    }
  }

  lemma OneLibraryMore(s: Shape, libraries: seq<nat>, i: nat)
    requires i < |libraries| && s.dllTables == s.dllPages == 0 && AllMapped(libraries)
    ensures Total(libraries[..i + 1]) == Total(libraries[..i]) + libraries[i] <= Total(libraries)
    ensures WithLibraries(s, libraries[..i + 1]) == WithLibrary(WithLibraries(s, libraries[..i]), libraries[i])
    ensures WithLibraries(s, libraries[..i]).dllPages == Total(libraries[..i])
    ensures WithLibraries(s, libraries[..i]).dllTables == TablesOf(Total(libraries[..i]))
    ensures var total := Total(libraries[..i + 1]);
            GetPTESizeInPages(total) == TablesOf(total) <= TablesOf(Total(libraries))
  {
    assert libraries[..i + 1][..i] == libraries[..i];
    LibraryShape(s, libraries[..i]);
    TotalGrows(libraries, i + 1);
    TablesFor(Total(libraries[..i]), libraries[i]);
  }

  class UserProcess {
    const mm: MemManager
    const processBase: nat
    const noOfPagesForProcess: nat
    var directory: nat
    var stackPTE: nat
    var startPDEForDLL: nat
    var noOfPagesForDLLPTE: nat
    var totalNoOfPagesForDLL: nat
    ghost var at: Roles
    /** The bitmap before the first page was claimed. */
    ghost var before: seq<bool>

    constructor (manager: MemManager, base: nat, imageSize: nat)
      requires imageSize > 0 && base % 4096 == 0
      ensures mm == manager && processBase == base && noOfPagesForProcess == GetProcessSizeInPages(imageSize)
      ensures at == map[] && before == manager.pageMap[..]
    {
      mm, processBase, noOfPagesForProcess := manager, base, GetProcessSizeInPages(imageSize);
      directory, stackPTE, startPDEForDLL, noOfPagesForDLLPTE, totalNoOfPagesForDLL := 0, 0, 0, 0, 0;
      at, before := map[], manager.pageMap[..];
    }

    function PdeBase(): nat { processBase / 4096 / 1024 }

    function PageBase(): nat { processBase / 4096 % 1024 }

    function NoOfPagesForPTE(): nat
      requires noOfPagesForProcess > 0
    {
      GetPTESizeInPages(noOfPagesForProcess + PageBase()) + PROCESS_SPACE_FOR_OS
    }

    /** The image and the libraries stay below the directory entries of frame buffer and stack. */
    ghost predicate Bounded() {
      noOfPagesForProcess > 0 && PdeBase() + NoOfPagesForPTE() <= PROCESS_GUI_FRAMEBUFFER_PDE_ID
    }

    ghost predicate Valid() reads `at, `before, mm, mm.pageMap {
      mm.Valid() && Injective(at) && Claims(before, mm.pageMap[..], at, mm.resvSize * 32)
    }

    ghost function FreeCount(): nat reads mm, mm.pageMap {
      |FreePages(mm.pageMap[..], mm.resvSize * 32)|
    }

    /** A page for a role. */
    method Claim(ghost x: Role) returns (ok: bool, page: nat)
      requires Valid() && x !in at
      modifies mm.pageMap, `at
      ensures Valid() && (ok <==> old(FreeCount()) > 0)
      ensures ok ==> mm.resvSize * 32 <= page && page !in old(at).Values && at == old(at)[x := page]
      ensures ok ==> FreeCount() == old(FreeCount()) - 1
      ensures !ok ==> at == old(at) && FreeCount() == 0
    {
      ok, page := mm.AllocatePhysicalPage();
      if ok {
        ClaimStep(before, old(mm.pageMap[..]), at, mm.resvSize * 32, x, page);
        at := at[x := page];
      }
    }

    ghost predicate Standing(s: Shape, d: Dims) reads `at, `before, `directory, `stackPTE, mm, mm.pageMap {
      && Valid() && Bounded() && Shaped(at, s) && s.directory && Layout(mm.memory, at, s, d)
      && directory == at[Directory] && (s.stackTable ==> stackPTE == at[StackTable])
      && d.first == 32 + PdeBase() && d.skip == PageBase()
      && d.kernel == mm.kernelDirectory && d.low == mm.resvSize * 32
    }

    ghost function MyDims(dllFirst: nat): Dims reads mm {
      Dims(32 + PdeBase(), PageBase(), dllFirst, mm.kernelDirectory, mm.resvSize * 32)
    }

    method AllocatePDE(ghost d: Dims) returns (ok: bool)
      requires Valid() && Bounded() && at == map[] && d == MyDims(d.dllFirst)
      modifies mm.pageMap, mm`memory, `at, `directory
      ensures ok <==> old(FreeCount()) > 0
      ensures ok ==> FreeCount() == old(FreeCount()) - 1 && Standing(TablesUpTo(0), d)
      ensures !ok ==> Valid() && FreeCount() == 0
    {
      var page;
      ok, page := Claim(Directory);
      if ok {
        mm.BlankTable(page);
        directory := page;
        forall j: nat | j < 1024 ensures HasEntry(mm.memory, page, j) { assert EntryIs(mm.memory, page, j, 2); }
      }
    }

    /** The table of one directory entry, of the kernel's half first and then of the image. */
    method AllocateTable(i: nat, ghost s: Shape, ghost s': Shape, ghost d: Dims) returns (ok: bool)
      requires Standing(s, d) == true && i < NoOfPagesForPTE()
      requires NextTable(s, s', d, TableRole(i), if i < 32 then i else i + PdeBase()) == true
      modifies mm.pageMap, mm`memory, `at
      ensures ok <==> old(FreeCount()) > 0
      ensures ok ==> FreeCount() == old(FreeCount()) - 1 && Standing(s', d) == true
      ensures !ok ==> Valid() && at == old(at) && FreeCount() == 0
    {
      ghost var x := TableRole(i);
      ghost var m, was := mm.memory, at;
      var page;
      ok, page := Claim(x);
      if ok {
        mm.BlankTable(page);
        var index := if i < 32 then i else i + PdeBase();
        TableAdded(m, mm.memory, was, s, s', d, x, page, index);
        mm.SetEntry(directory, index, Entry(page, 7));
      }
    }

    ghost function Tables(): nat
      requires noOfPagesForProcess > 0
    {
      NoOfPagesForPTE() - PROCESS_SPACE_FOR_OS
    }

    ghost function TableRole(i: nat): Role {
      if i < 32 then OsTable(i) else TableOf(Image, i - 32)
    }

    lemma TablesNext(i: nat, d: Dims)
      requires Bounded() && i < NoOfPagesForPTE() && d.first == 32 + PdeBase() && d.dllFirst == d.first + Tables()
      ensures NextTable(TablesUpTo(i), TablesUpTo(i + 1), d, TableRole(i), if i < 32 then i else i + PdeBase()) == true
    {
    }

    /** The shape with the first `i` tables in place. */
    ghost function TablesUpTo(i: nat): Shape {
      Shape(true, if i < 32 then i else 32, if i < 32 then 0 else i - 32, 0, false, 1024, 1024, 0, 0, 0)
    }

    /** The shape with every table in place. */
    ghost function Tabled(): Shape
      requires noOfPagesForProcess > 0
    {
      Shape(true, 32, Tables(), 0, true, 1024, 1024, 0, 0, 0)
    }

    /** The shape with the kernel's half filled in. */
    ghost function Mirroring(): Shape
      requires noOfPagesForProcess > 0
    {
      Tabled().(mirrored := 32)
    }

    ghost function Built(): Shape
      requires noOfPagesForProcess > 0
    {
      Shape(true, 32, Tables(), noOfPagesForProcess, true, 1024 - STACK_PAGES, 1024, 0, 0, 32)
    }

    method AllocatePTE(ghost d: Dims) returns (ok: bool)
      requires Bounded() && Standing(TablesUpTo(0), d) == true && d.dllFirst == d.first + Tables()
      modifies mm.pageMap, mm`memory, `at, `stackPTE, `startPDEForDLL
      ensures ok <==> old(FreeCount()) > NoOfPagesForPTE()
      ensures ok ==> FreeCount() == old(FreeCount()) - NoOfPagesForPTE() - 1 && startPDEForDLL == d.dllFirst
      ensures ok ==> Standing(Tabled(), d) == true
      ensures !ok ==> Valid() && FreeCount() == 0
    {
      var index;
      ok, index := AllocateTables(d);
      if !ok { return; }
      startPDEForDLL := index + 1;
      ghost var s := TablesUpTo(NoOfPagesForPTE());
      assert s.(stackTable := true) == Tabled();
      ok := AllocatePTEForStack(s, Tabled(), d);
    }

    /** The tables of the kernel's share and of the image; `index` is the directory entry of the last. */
    method AllocateTables(ghost d: Dims) returns (ok: bool, index: nat)
      requires Bounded() && Standing(TablesUpTo(0), d) == true && d.dllFirst == d.first + Tables()
      modifies mm.pageMap, mm`memory, `at
      ensures ok <==> old(FreeCount()) >= NoOfPagesForPTE()
      ensures ok ==> FreeCount() == old(FreeCount()) - NoOfPagesForPTE() && index + 1 == d.dllFirst
      ensures ok ==> Standing(TablesUpTo(NoOfPagesForPTE()), d) == true
      ensures !ok ==> Valid() && FreeCount() == 0
    {
      ghost var count := FreeCount();
      ok, index := true, 0;
      for i := 0 to NoOfPagesForPTE()
        invariant ok && Standing(TablesUpTo(i), d) == true && FreeCount() + i == count
        invariant i > 32 ==> index == i - 1 + PdeBase()
      {
        if i >= 32 { index := i + PdeBase(); }
        TablesNext(i, d);
        ok := AllocateTable(i, TablesUpTo(i), TablesUpTo(i + 1), d);
        if !ok { return; }
      }
    }

    method AllocatePTEForStack(ghost s: Shape, ghost s': Shape, ghost d: Dims) returns (ok: bool)
      requires Standing(s, d) == true && !s.stackTable && s.stackFrom == 1024 && s' == s.(stackTable := true)
      modifies mm.pageMap, mm`memory, `at, `stackPTE
      ensures ok <==> old(FreeCount()) > 0
      ensures ok ==> FreeCount() == old(FreeCount()) - 1 && Standing(s', d) == true
      ensures !ok ==> Valid() && at == old(at) && FreeCount() == 0
    {
      ghost var m, was := mm.memory, at;
      var page;
      ok, page := Claim(StackTable);
      if ok {
        mm.BlankTable(page);
        StackTableAdded(m, mm.memory, was, s, d, page);
        stackPTE := page;
      }
    }

    /** One entry of the kernel's half. */
    method MirrorEntry(kernelPTE: nat, pte: nat, i: nat, j: nat, ghost s: Shape, ghost d: Dims)
      requires Standing(s, d) && s.os == 32 && i == s.mirrored < 32 && j < 1024 && pte == at[OsTable(i)]
      requires EntryNames(mm.memory, mm.kernelDirectory, i, kernelPTE)
      requires MirroredRow(mm.memory, at, d.kernel, d.low, i, j)
      modifies mm`memory
      ensures Standing(s, d) && EntryNames(mm.memory, mm.kernelDirectory, i, kernelPTE)
      ensures MirroredRow(mm.memory, at, d.kernel, d.low, i, j + 1)
    {
      ghost var m := mm.memory;
      assert KernelEntryKnown(m, d.kernel, d.low, i, j);
      var v := Entry(PageOf(LoadEntry(mm.memory, kernelPTE, j)), 5);
      MirrorEntrySet(m, at, s, d, i, j, v);
      mm.SetEntry(pte, j, v);
      RowStep(m, mm.memory, at, d.kernel, d.low, i, j, v);
    }

    method MirrorTable(i: nat, ghost s: Shape, ghost d: Dims)
      requires Standing(s, d) && s.os == 32 && i == s.mirrored < 32
      modifies mm`memory
      ensures Standing(s.(mirrored := i + 1), d)
    {
      assert OsDirectedAt(mm.memory, at, i);
      assert KernelEntryKnown(mm.memory, d.kernel, d.low, i, 0);
      var kernelPTE := PageOf(LoadEntry(mm.memory, mm.kernelDirectory, i));
      var pte := PageOf(LoadEntry(mm.memory, directory, i));
      for j := 0 to 1024
        invariant Standing(s, d) && EntryNames(mm.memory, mm.kernelDirectory, i, kernelPTE)
        invariant MirroredRow(mm.memory, at, d.kernel, d.low, i, j)
      {
        MirrorEntry(kernelPTE, pte, i, j, s, d);
      }
      forall k: nat, l: nat | k < i + 1 && l < 1024 ensures MirroredAt(mm.memory, at, d.kernel, d.low, k, l) {}
    }

    method InitializeProcessSpaceForOS(ghost d: Dims)
      requires Bounded() && Standing(Tabled(), d) == true
      modifies mm`memory
      ensures Standing(Mirroring(), d)
    {
      for i := 0 to PROCESS_SPACE_FOR_OS
        invariant Standing(Tabled().(mirrored := i), d)
      {
        MirrorTable(i, Tabled().(mirrored := i), d);
      }
    }

    /** The next page of the image. */
    method MapImagePage(i: nat, ghost s: Shape, ghost s': Shape, ghost d: Dims) returns (ok: bool)
      requires Standing(s, d) && i == s.pages < noOfPagesForProcess && s.tables == Tables() && s' == s.(pages := i + 1)
      modifies mm.pageMap, mm`memory, `at
      ensures ok <==> old(FreeCount()) > 0
      ensures ok ==> FreeCount() == old(FreeCount()) - 1 && Standing(s', d) == true
      ensures !ok ==> Valid() && at == old(at) && FreeCount() == 0
    {
      ghost var was := at;
      var page;
      ok, page := Claim(PageIn(Image, i));
      if ok {
        var pdeIndex, pteIndex := (PageBase() + i) / 1024 + PdeBase() + PROCESS_SPACE_FOR_OS, (PageBase() + i) % 1024;
        PageAdded(mm.memory, was, s, s', d, Image, i, d.skip, page, pdeIndex, pteIndex);
        var pte := PageOf(LoadEntry(mm.memory, directory, pdeIndex));
        mm.SetEntry(pte, pteIndex, Entry(page, 7));
      }
    }

    method InitializeProcessSpaceForProcess(ghost d: Dims) returns (ok: bool)
      requires Bounded() && Standing(Mirroring(), d) == true
      modifies mm.pageMap, mm`memory, `at
      ensures ok <==> old(FreeCount()) >= noOfPagesForProcess + STACK_PAGES
      ensures ok ==> FreeCount() == old(FreeCount()) - noOfPagesForProcess - STACK_PAGES && Standing(Built(), d)
      ensures !ok ==> Valid() && FreeCount() == 0
    {
      ghost var count := FreeCount();
      for i := 0 to noOfPagesForProcess
        invariant Standing(Mirroring().(pages := i), d) == true && FreeCount() + i == count
      {
        ok := MapImagePage(i, Mirroring().(pages := i), Mirroring().(pages := i + 1), d);
        if !ok { return; }
      }
      ghost var s := Mirroring().(pages := noOfPagesForProcess);
      assert s.(stackFrom := 1024 - STACK_PAGES) == Built();
      ok := AllocateStackSpace(s, d);
    }

    method MapStackPage(i: nat, ghost s: Shape, ghost s': Shape, ghost d: Dims) returns (ok: bool)
      requires Standing(s, d) == true && s.stackTable && s.stackTo == 1024 && i < 1024 && s.stackFrom == 1024 - i
      requires s' == s.(stackFrom := 1023 - i)
      modifies mm.pageMap, mm`memory, `at
      ensures ok <==> old(FreeCount()) > 0
      ensures ok ==> FreeCount() == old(FreeCount()) - 1 && Standing(s', d) == true
      ensures !ok ==> Valid() && at == old(at) && FreeCount() == 0
    {
      ghost var was := at;
      var page;
      var j: nat := 1023 - i;
      ok, page := Claim(StackPage(j));
      if ok {
        var v := Entry(page, if i > 7 then 7 else 3);
        StackPageAdded(mm.memory, was, s, s', d, page, j, v);
        mm.SetEntry(stackPTE, j, v);
      }
    }

    method AllocateStackSpace(ghost s: Shape, ghost d: Dims) returns (ok: bool)
      requires Standing(s, d) == true && s.stackTable && s.stackFrom == 1024 == s.stackTo
      modifies mm.pageMap, mm`memory, `at
      ensures ok <==> old(FreeCount()) >= STACK_PAGES
      ensures ok ==> FreeCount() == old(FreeCount()) - STACK_PAGES && Standing(s.(stackFrom := 1024 - STACK_PAGES), d)
      ensures !ok ==> Valid() && FreeCount() == 0
    {
      ghost var count := FreeCount();
      ghost var now := s;
      for i := 0 to STACK_PAGES
        invariant Standing(now, d) == true && now == s.(stackFrom := 1024 - i) && FreeCount() + i == count
      {
        ghost var next := s.(stackFrom := 1023 - i);
        ok := MapStackPage(i, now, next, d);
        if !ok { return; }
        now := next;
      }
      ok := true;
    }

    /** The tables below a fresh directory, and what hangs below them. */
    method FillDirectory(ghost d: Dims) returns (ok: bool)
      requires Bounded() && Standing(TablesUpTo(0), d) && d == MyDims(32 + PdeBase() + Tables())
      modifies mm.pageMap, mm`memory, `at, `stackPTE, `startPDEForDLL
      ensures ok <==> old(FreeCount()) >= NoOfPagesForPTE() + 1 + noOfPagesForProcess + STACK_PAGES
      ensures ok ==> startPDEForDLL == d.dllFirst && Standing(Built(), d)
      ensures ok ==> FreeCount() == old(FreeCount()) - (NoOfPagesForPTE() + 1 + noOfPagesForProcess + STACK_PAGES)
      ensures !ok ==> Valid() && FreeCount() == 0
    {
      ok := AllocatePTE(d);
      if ok {
        InitializeProcessSpaceForOS(d);
        ok := InitializeProcessSpaceForProcess(d);
      }
    }

    /**
     The whole address space of a process.  When fewer pages are free than it needs, every free page is taken and none
     given back.
     */
    method AllocateAddressSpace() returns (ok: bool)
      requires Valid() && Bounded() && at == map[]
      modifies mm.pageMap, mm`memory, `at, `directory, `stackPTE, `startPDEForDLL
      ensures ok <==> old(FreeCount()) >= 1 + NoOfPagesForPTE() + 1 + noOfPagesForProcess + STACK_PAGES
      ensures ok ==> startPDEForDLL == 32 + PdeBase() + Tables() && Standing(Built(), MyDims(startPDEForDLL))
      ensures ok ==> FreeCount() == old(FreeCount()) - (1 + NoOfPagesForPTE() + 1 + noOfPagesForProcess + STACK_PAGES)
      ensures !ok ==> Valid() && FreeCount() == 0
    {
      ghost var d := MyDims(32 + PdeBase() + Tables());
      ok := AllocatePDE(d);
      if ok { ok := FillDirectory(d); }
    }

    method CopyPage(i: nat, image: seq<nat>, size: nat, ghost s: Shape, ghost d: Dims)
      requires Standing(s, d) && i < s.pages && s.tables == Tables() && s.pages == noOfPagesForProcess
      requires size <= 4096 && i * 4096 + size <= |image| && Copied(mm.memory, at, image, i * 4096)
      modifies mm`memory
      ensures Standing(s, d) && Copied(mm.memory, at, image, i * 4096 + size)
    {
      var pdeIndex, pteIndex := (PageBase() + i) / 1024 + PdeBase() + PROCESS_SPACE_FOR_OS, (PageBase() + i) % 1024;
      ghost var m := mm.memory;
      assert PageMapped(m, at, Image, d.skip, i);
      assert DirectedAt(m, at, Image, d.first, (d.skip + i) / 1024);
      var pte := PageOf(LoadEntry(mm.memory, directory, pdeIndex));
      var page := PageOf(LoadEntry(mm.memory, pte, pteIndex));
      mm.CopyBytes(page, image, i * 4096, size);
      LayoutKept(m, mm.memory, at, at, s, d, page);
      PageCopied(m, mm.memory, at, image, i, size);
    }

    /** Every byte of the flat image, a page at a time and the last page in part. */
    method CopyElfImage(image: seq<nat>, ghost s: Shape, ghost d: Dims)
      requires Standing(s, d) && s.tables == Tables() && s.pages == noOfPagesForProcess
      requires |image| > 0 && noOfPagesForProcess == GetProcessSizeInPages(|image|)
      modifies mm`memory
      ensures Standing(s, d) && Copied(mm.memory, at, image, |image|)
    {
      var copySize := |image|;
      for i := 0 to noOfPagesForProcess
        invariant Standing(s, d) && copySize == |image| - i * 4096 > 0 && Copied(mm.memory, at, image, i * 4096)
      {
        CopyPage(i, image, if copySize < 4096 then copySize else 4096, s, d);
        if copySize <= 4096 { return; }
        copySize := copySize - 4096;
      }
    }

    /** A finished space: its fields agree with its shape. */
    ghost predicate Finished(s: Shape, d: Dims) reads `startPDEForDLL, `noOfPagesForDLLPTE, `totalNoOfPagesForDLL {
      && Bounded() && s.directory && s.stackTable && startPDEForDLL == d.dllFirst && d.first + Tables() <= d.dllFirst
      && s.os == 32 && s.tables == Tables() && s.pages == noOfPagesForProcess && s.stackTo == 1024
      && s.dllTables == noOfPagesForDLLPTE && s.dllPages == totalNoOfPagesForDLL
      && s.dllTables == (s.dllPages + 1023) / 1024
    }

    /** What a teardown needs, however the rest of memory has changed since the space was built. */
    ghost predicate Alive(s: Shape, d: Dims) reads this, mm, mm.pageMap {
      && mm.Valid() && Injective(at) && Shaped(at, s) && Finished(s, d) && Layout(mm.memory, at, s, d)
      && directory == at[Directory] && stackPTE == at[StackTable]
      && d.first == 32 + PdeBase() && d.skip == PageBase() && d.low > 0
    }

    lemma StandingAlive(s: Shape, d: Dims)
      requires Standing(s, d) && Finished(s, d)
      ensures Alive(s, d) && InUse(mm.pageMap[..], at)
    {
    }

    /** One page of the space, still in use, is given back. */
    method GiveBack(page: nat, ghost x: Role, ghost b1: seq<bool>, ghost gone: Shape, ghost gone': Shape)
      requires mm.Valid() && Injective(at) && x in at && page == at[x] && !Includes(gone, x)
      requires Returned(b1, mm.pageMap[..], at, gone) == true
      requires forall y :: y in at ==> (Includes(gone', y) <==> Includes(gone, y) || y == x)
      modifies mm.pageMap
      ensures mm.Valid() && Returned(b1, mm.pageMap[..], at, gone') == true
    {
      ReturnStep(b1, mm.pageMap[..], at, gone, gone', x);
      mm.DeAllocatePhysicalPage(page);
    }

    method DeAllocateProcessPages(ghost s: Shape, ghost d: Dims, ghost b1: seq<bool>, ghost gone: Shape)
      requires Alive(s, d) && gone.pages == 0 && Returned(b1, mm.pageMap[..], at, gone) == true
      modifies mm.pageMap
      ensures mm.Valid() && Returned(b1, mm.pageMap[..], at, gone.(pages := s.pages)) == true
    {
      ghost var now := gone;
      for i := 0 to noOfPagesForProcess
        invariant mm.Valid() && now == gone.(pages := i) && Returned(b1, mm.pageMap[..], at, now) == true
      {
        ghost var next := gone.(pages := i + 1);
        DeAllocateProcessPage(i, s, d, b1, now, next);
        now := next;
      }
    }

    method DeAllocateProcessPage(i: nat, ghost s: Shape, ghost d: Dims, ghost b1: seq<bool>, ghost gone: Shape,
                                 ghost gone': Shape)
      requires Alive(s, d) && i == gone.pages < noOfPagesForProcess && gone' == gone.(pages := i + 1)
      requires Returned(b1, mm.pageMap[..], at, gone) == true
      modifies mm.pageMap
      ensures mm.Valid() && Returned(b1, mm.pageMap[..], at, gone') == true
    {
      var pdeIndex, pteIndex := (PageBase() + i) / 1024 + PdeBase() + PROCESS_SPACE_FOR_OS, (PageBase() + i) % 1024;
      assert PageMapped(mm.memory, at, Image, d.skip, i);
      assert DirectedAt(mm.memory, at, Image, d.first, (d.skip + i) / 1024);
      var pte := PageOf(LoadEntry(mm.memory, directory, pdeIndex));
      GiveBack(PageOf(LoadEntry(mm.memory, pte, pteIndex)), PageIn(Image, i), b1, gone, gone');
    }

    /** One entry of the stack table, if a page hangs there. */
    method DeAllocateStackPage(i: nat, ghost s: Shape, ghost d: Dims, ghost b1: seq<bool>, ghost gone: Shape,
                               ghost gone': Shape)
      requires Alive(s, d) && i < 1024 && gone.stackFrom == 0 && gone.stackTo == i && gone' == gone.(stackTo := i + 1)
      requires Returned(b1, mm.pageMap[..], at, gone) == true
      modifies mm.pageMap
      ensures mm.Valid() && Returned(b1, mm.pageMap[..], at, gone') == true
    {
      assert StackMappedAt(mm.memory, at, s.stackFrom, i);
      var entry := LoadEntry(mm.memory, stackPTE, i);
      if Present(entry) && PageOf(entry) != 0 {
        GiveBack(PageOf(entry), StackPage(i), b1, gone, gone');
      }
    }

    method DeAllocateStackSpace(ghost s: Shape, ghost d: Dims, ghost b1: seq<bool>, ghost gone: Shape)
      requires Alive(s, d) && gone.stackFrom == 0 == gone.stackTo && Returned(b1, mm.pageMap[..], at, gone) == true
      modifies mm.pageMap
      ensures mm.Valid() && Returned(b1, mm.pageMap[..], at, gone.(stackTo := 1024)) == true
    {
      ghost var now := gone;
      for i := 0 to 1024
        invariant mm.Valid() && now == gone.(stackTo := i) && Returned(b1, mm.pageMap[..], at, now) == true
      {
        ghost var next := gone.(stackTo := i + 1);
        DeAllocateStackPage(i, s, d, b1, now, next);
        now := next;
      }
    }

    method DeAllocatePTE(ghost s: Shape, ghost d: Dims, ghost b1: seq<bool>, ghost gone: Shape)
      requires Alive(s, d) && gone.os == gone.tables == 0 && !gone.stackTable
      requires Returned(b1, mm.pageMap[..], at, gone) == true
      modifies mm.pageMap
      ensures mm.Valid()
      ensures Returned(b1, mm.pageMap[..], at, gone.(os := 32, tables := s.tables, stackTable := true)) == true
    {
      ghost var now := gone;
      for i := 0 to NoOfPagesForPTE()
        invariant mm.Valid() && Returned(b1, mm.pageMap[..], at, now) == true
        invariant now == gone.(os := if i < 32 then i else 32, tables := if i < 32 then 0 else i - 32)
      {
        var pdeIndex := if i < PROCESS_SPACE_FOR_OS then i else i + PdeBase();
        ghost var x := if i < 32 then OsTable(i) else TableOf(Image, i - 32);
        if i < 32 {
          assert OsDirectedAt(mm.memory, at, i);
        } else {
          assert DirectedAt(mm.memory, at, Image, d.first, i - 32);
        }
        ghost var next := gone.(os := if i < 31 then i + 1 else 32, tables := if i < 32 then 0 else i - 31);
        GiveBack(PageOf(LoadEntry(mm.memory, directory, pdeIndex)), x, b1, now, next);
        now := next;
      }
      GiveBack(stackPTE, StackTable, b1, now, now.(stackTable := true));
    }

    method DeAllocateDLLPage(pte: nat, i: nat, k: nat, ghost s: Shape, ghost d: Dims, ghost b1: seq<bool>,
                             ghost gone: Shape, ghost gone': Shape)
      requires Alive(s, d) && i < s.dllTables && k < 1024 && gone.dllPages == i * 1024 + k < s.dllPages
      requires pte == at[TableOf(Dll, i)]
      requires gone' == gone.(dllPages := i * 1024 + k + 1) && Returned(b1, mm.pageMap[..], at, gone) == true
      modifies mm.pageMap
      ensures mm.Valid() && Returned(b1, mm.pageMap[..], at, gone') == true
    {
      SlotOf(i, k);
      assert PageMapped(mm.memory, at, Dll, 0, i * 1024 + k);
      var entry := LoadEntry(mm.memory, pte, k);
      FlagsDropped(at[PageIn(Dll, i * 1024 + k)], 7);
      if Present(entry) && PageOf(entry) != 0 {
        GiveBack(PageOf(entry), PageIn(Dll, i * 1024 + k), b1, gone, gone');
      }
    }

    method DeAllocateDLLTable(i: nat, count: nat, ghost s: Shape, ghost d: Dims, ghost b1: seq<bool>,
                              ghost gone: Shape, ghost gone': Shape)
      returns (rest: nat)
      requires Alive(s, d) && i == gone.dllTables < noOfPagesForDLLPTE && gone.dllPages == i * 1024
      requires i * 1024 + count == totalNoOfPagesForDLL
      requires gone' == gone.(dllTables := i + 1, dllPages := i * 1024 + Least(count, 1024))
      requires Returned(b1, mm.pageMap[..], at, gone) == true
      modifies mm.pageMap
      ensures mm.Valid() && rest == (if count < 1024 then 0 else count - 1024)
      ensures Returned(b1, mm.pageMap[..], at, gone') == true
    {
      assert DirectedAt(mm.memory, at, Dll, d.dllFirst, i);
      FlagsDropped(at[TableOf(Dll, i)], 7);
      var pte := PageOf(LoadEntry(mm.memory, directory, i + startPDEForDLL));
      rest := count;
      ghost var now := gone;
      var k: nat := 0;
      while k < 1024 && rest > 0
        invariant k <= 1024 && rest + k == count && mm.Valid()
        invariant now == gone.(dllPages := i * 1024 + k) && Returned(b1, mm.pageMap[..], at, now) == true
      {
        ghost var next := gone.(dllPages := i * 1024 + k + 1);
        DeAllocateDLLPage(pte, i, k, s, d, b1, now, next);
        now := next;
        k, rest := k + 1, rest - 1;
      }
      GiveBack(pte, TableOf(Dll, i), b1, now, gone');
    }

    /** Every library page and the tables that led to them. */
    method DeAllocateDLLPages(ghost s: Shape, ghost d: Dims, ghost b1: seq<bool>, ghost gone: Shape)
      requires Alive(s, d) && gone.dllTables == gone.dllPages == 0 && Returned(b1, mm.pageMap[..], at, gone) == true
      modifies mm.pageMap
      ensures mm.Valid()
      ensures Returned(b1, mm.pageMap[..], at, gone.(dllTables := s.dllTables, dllPages := s.dllPages)) == true
    {
      var count := totalNoOfPagesForDLL;
      ghost var now := gone;
      for i := 0 to noOfPagesForDLLPTE
        invariant mm.Valid() && Returned(b1, mm.pageMap[..], at, now) == true
        invariant now == gone.(dllTables := i, dllPages := Least(totalNoOfPagesForDLL, i * 1024))
        invariant count == totalNoOfPagesForDLL - Least(totalNoOfPagesForDLL, i * 1024)
      {
        assert DirectedAt(mm.memory, at, Dll, d.dllFirst, i);
        FlagsDropped(at[TableOf(Dll, i)], 7);
        var entry := LoadEntry(mm.memory, directory, i + startPDEForDLL);
        ghost var next := gone.(dllTables := i + 1, dllPages := Least(totalNoOfPagesForDLL, i * 1024 + 1024));
        if Present(entry) && PageOf(entry) != 0 {
          count := DeAllocateDLLTable(i, count, s, d, b1, now, next);
        }
        now := next;
      }
    }

    /** Every page of the space, libraries included, is given back, each once, and no other. */
    method DeAllocateResources(ghost s: Shape, ghost d: Dims)
      requires Alive(s, d) && InUse(mm.pageMap[..], at)
      modifies mm.pageMap
      ensures mm.Valid() && Returned(old(mm.pageMap[..]), mm.pageMap[..], at, s)
    {
      ghost var b1 := mm.pageMap[..];
      ghost var none := Shape(false, 0, 0, 0, false, 0, 0, 0, 0, 0);
      DeAllocateDLLPages(s, d, b1, none);
      ghost var g1 := none.(dllTables := s.dllTables, dllPages := s.dllPages);
      DeAllocateProcessPages(s, d, b1, g1);
      ghost var g2 := g1.(pages := s.pages);
      DeAllocateStackSpace(s, d, b1, g2);
      ghost var g3 := g2.(stackTo := 1024);
      DeAllocatePTE(s, d, b1, g3);
      ghost var g4 := g3.(os := 32, tables := s.tables, stackTable := true);
      ghost var g5 := g4.(directory := true);
      GiveBack(directory, Directory, b1, g4, g5);
      forall x | x in at ensures Includes(g5, x) == Includes(s, x) {}
    }

    method MapDLLTable(pdeIndex: nat, ghost i: nat, ghost s: Shape, ghost s': Shape, ghost d: Dims) returns (ok: bool)
      requires Standing(s, d) == true && NextTable(s, s', d, TableOf(Dll, i), pdeIndex) == true
      requires pdeIndex < PROCESS_GUI_FRAMEBUFFER_PDE_ID
      modifies mm.pageMap, mm`memory, `at
      ensures ok <==> old(FreeCount()) > 0
      ensures ok ==> FreeCount() == old(FreeCount()) - 1 && Standing(s', d) == true
      ensures ok ==> KeepsImage(old(mm.memory), mm.memory, old(at), at) == true
      ensures !ok ==> Valid() && FreeCount() == 0
    {
      ghost var was := at;
      var page;
      ok, page := Claim(TableOf(Dll, i));
      if ok {
        TableAdded(mm.memory, mm.memory, was, s, s', d, TableOf(Dll, i), page, pdeIndex);
        KeptByStore(mm.memory, was, at, directory, pdeIndex, Entry(page, 7));
        mm.SetEntry(directory, pdeIndex, Entry(page, 7));
      }
    }

    method MapDLLPage(k: nat, ghost s: Shape, ghost s': Shape, ghost d: Dims) returns (ok: bool)
      requires Standing(s, d) == true && k == s.dllPages && s' == s.(dllPages := k + 1) && k / 1024 < s.dllTables
      requires d.dllFirst == startPDEForDLL
      modifies mm.pageMap, mm`memory, `at
      ensures ok <==> old(FreeCount()) > 0
      ensures ok ==> FreeCount() == old(FreeCount()) - 1 && Standing(s', d) == true
      ensures ok ==> KeepsImage(old(mm.memory), mm.memory, old(at), at) == true
      ensures !ok ==> Valid() && FreeCount() == 0
    {
      ghost var was := at;
      var page;
      ok, page := Claim(PageIn(Dll, k));
      if ok {
        var pdeIndex, pteIndex := k / 1024 + startPDEForDLL, k % 1024;
        PageAdded(mm.memory, was, s, s', d, Dll, k, 0, page, pdeIndex, pteIndex);
        TableNamed(mm.memory, was, s, d, k, pdeIndex);
        var pte := PageOf(LoadEntry(mm.memory, directory, pdeIndex));
        KeptByStore(mm.memory, was, at, pte, pteIndex, Entry(page, 7));
        mm.SetEntry(pte, pteIndex, Entry(page, 7));
      }
    }

    lemma DLLTableNext(s: Shape, d: Dims, i: nat, index: nat)
      requires d.first == 32 + PdeBase() && s.os <= 32 && index == d.dllFirst + i && d.first + s.tables <= d.dllFirst
      ensures NextTable(TabledTo(s, i), TabledTo(s, i + 1), d, TableOf(Dll, i), index) == true
    {
    }

    /** The shape with `n` tables of libraries. */
    ghost function TabledTo(s: Shape, n: nat): Shape {
      s.(dllTables := n)
    }

    /** The shape with `n` pages of libraries. */
    ghost function PagedTo(s: Shape, n: nat): Shape {
      s.(dllPages := n)
    }

    method MapDLLTables(noOfPTE: nat, ghost s: Shape, ghost s': Shape, ghost d: Dims) returns (ok: bool)
      requires Standing(s, d) == true && s.dllTables == noOfPagesForDLLPTE <= noOfPTE
      requires s' == TabledTo(s, noOfPTE)
      requires d.first + s.tables <= d.dllFirst == startPDEForDLL
      requires startPDEForDLL + noOfPTE <= PROCESS_GUI_FRAMEBUFFER_PDE_ID && s.os <= 32
      modifies mm.pageMap, mm`memory, `at
      ensures ok <==> old(FreeCount()) >= noOfPTE - noOfPagesForDLLPTE
      ensures ok ==> FreeCount() == old(FreeCount()) - (noOfPTE - noOfPagesForDLLPTE) && Standing(s', d) == true
      ensures ok ==> KeepsImage(old(mm.memory), mm.memory, old(at), at) == true
      ensures !ok ==> Valid() && FreeCount() == 0
    {
      ghost var count, m0, at0 := FreeCount(), mm.memory, at;
      GrownFrom(s, d);
      assert TabledTo(s, noOfPagesForDLLPTE) == s;
      ok := MapMoreDLLTables(noOfPTE, s, d, m0, at0, count);
      if ok { GrownTo(s, s', d, m0, at0, count); }
    }

    method MapMoreDLLTables(noOfPTE: nat, ghost s: Shape, ghost d: Dims, ghost m0: Memory, ghost at0: Roles,
                            ghost count: nat)
      returns (ok: bool)
      requires s.dllTables == noOfPagesForDLLPTE <= noOfPTE
      requires Grown(s, TabledTo(s, noOfPagesForDLLPTE), d, m0, at0, count) == true
      requires d.dllFirst + noOfPTE <= PROCESS_GUI_FRAMEBUFFER_PDE_ID
      modifies mm.pageMap, mm`memory, `at
      ensures ok <==> noOfPTE - s.dllTables <= count
      ensures ok ==> Grown(s, TabledTo(s, noOfPTE), d, m0, at0, count) == true
      ensures !ok ==> Valid() == true && FreeCount() == 0
    {
      ok := true;
      for i := noOfPagesForDLLPTE to noOfPTE
        invariant Grown(s, TabledTo(s, i), d, m0, at0, count) == true && ok && i - s.dllTables <= count
      {
        ok := MapNextDLLTable(i, s, d, m0, at0, count);
        if !ok { return; }
      }
    }

    lemma GrownFrom(s: Shape, d: Dims)
      requires Standing(s, d) && d.first + s.tables <= d.dllFirst == startPDEForDLL && s.os <= 32
      ensures Grown(s, s, d, mm.memory, at, FreeCount()) == true
    {
    }

    lemma GrownTo(s: Shape, s': Shape, d: Dims, m0: Memory, at0: Roles, count: nat)
      requires Grown(s, s', d, m0, at0, count) == true
      ensures Standing(s', d) == true && KeepsImage(m0, mm.memory, at0, at) == true
      ensures FreeCount() == count - (s'.dllTables - s.dllTables) - (s'.dllPages - s.dllPages)
    {
    }

    /** Tables and pages of libraries have been added, at the cost of a page each, and the image is as it was. */
    ghost predicate Grown(s: Shape, now: Shape, d: Dims, m0: Memory, at0: Roles, count: nat)
      reads `at, `before, `directory, `stackPTE, `startPDEForDLL, mm, mm.pageMap
    {
      && d.first + s.tables <= d.dllFirst == startPDEForDLL && s.os <= 32
      && Standing(now, d) && s.dllTables <= now.dllTables && s.dllPages <= now.dllPages
      && FreeCount() + (now.dllTables - s.dllTables) + (now.dllPages - s.dllPages) == count
      && KeepsImage(m0, mm.memory, at0, at)
    }

    method MapNextDLLTable(i: nat, ghost s: Shape, ghost d: Dims, ghost m0: Memory, ghost at0: Roles, ghost count: nat)
      returns (ok: bool)
      requires Grown(s, TabledTo(s, i), d, m0, at0, count) == true
      requires d.dllFirst + i < PROCESS_GUI_FRAMEBUFFER_PDE_ID
      modifies mm.pageMap, mm`memory, `at
      ensures ok <==> i - s.dllTables < count
      ensures ok ==> Grown(s, TabledTo(s, i + 1), d, m0, at0, count) == true
      ensures !ok ==> Valid() == true && FreeCount() == 0
    {
      ghost var m, was := mm.memory, at;
      var pdeIndex := startPDEForDLL + i;
      DLLTableNext(s, d, i, pdeIndex);
      ok := MapDLLTable(pdeIndex, i, TabledTo(s, i), TabledTo(s, i + 1), d);
      if ok { KeptTwice(m0, m, mm.memory, at0, was, at); }
    }

    method MapDLLPages(to: nat, ghost s: Shape, ghost s': Shape, ghost d: Dims) returns (ok: bool)
      requires Standing(s, d) == true && d.first + s.tables <= d.dllFirst == startPDEForDLL && s.os <= 32
      requires s.dllPages == totalNoOfPagesForDLL <= to && s' == PagedTo(s, to) && TabledFor(s, to) == true
      modifies mm.pageMap, mm`memory, `at
      ensures ok <==> old(FreeCount()) >= to - totalNoOfPagesForDLL
      ensures ok ==> FreeCount() == old(FreeCount()) - (to - totalNoOfPagesForDLL) && Standing(s', d) == true
      ensures ok ==> KeepsImage(old(mm.memory), mm.memory, old(at), at) == true
      ensures !ok ==> Valid() && FreeCount() == 0
    {
      ghost var count, m0, at0 := FreeCount(), mm.memory, at;
      GrownFrom(s, d);
      assert PagedTo(s, totalNoOfPagesForDLL) == s;
      ok := MapMoreDLLPages(to, s, d, m0, at0, count);
      if ok { GrownTo(s, s', d, m0, at0, count); }
    }

    method MapMoreDLLPages(to: nat, ghost s: Shape, ghost d: Dims, ghost m0: Memory, ghost at0: Roles, ghost count: nat)
      returns (ok: bool)
      requires s.dllPages == totalNoOfPagesForDLL <= to && TabledFor(s, to) == true
      requires Grown(s, PagedTo(s, totalNoOfPagesForDLL), d, m0, at0, count) == true
      modifies mm.pageMap, mm`memory, `at
      ensures ok <==> to - s.dllPages <= count
      ensures ok ==> Grown(s, PagedTo(s, to), d, m0, at0, count) == true
      ensures !ok ==> Valid() == true && FreeCount() == 0
    {
      ok := true;
      for k := totalNoOfPagesForDLL to to
        invariant Grown(s, PagedTo(s, k), d, m0, at0, count) == true && ok && k - s.dllPages <= count
      {
        ok := MapNextDLLPage(k, to, s, d, m0, at0, count);
        if !ok { return; }
      }
    }

    /** There are tables for `n` pages of libraries. */
    ghost predicate TabledFor(s: Shape, n: nat) {
      n <= 1024 * s.dllTables
    }

    method MapNextDLLPage(k: nat, ghost to: nat, ghost s: Shape, ghost d: Dims, ghost m0: Memory, ghost at0: Roles,
                          ghost count: nat)
      returns (ok: bool)
      requires Grown(s, PagedTo(s, k), d, m0, at0, count) == true && k < to && TabledFor(s, to) == true
      modifies mm.pageMap, mm`memory, `at
      ensures ok <==> k - s.dllPages < count
      ensures ok ==> Grown(s, PagedTo(s, k + 1), d, m0, at0, count) == true
      ensures !ok ==> Valid() == true && FreeCount() == 0
    {
      ghost var m, was := mm.memory, at;
      ok := MapDLLPage(k, PagedTo(s, k), PagedTo(s, k + 1), d);
      if ok { KeptTwice(m0, m, mm.memory, at0, was, at); }
    }

    method MapDLL(n: nat, noOfPTE: nat, ghost s: Shape, ghost s': Shape, ghost d: Dims) returns (ok: bool)
      requires Standing(s, d) && Finished(s, d) && n > 0 && s' == s.(dllTables := noOfPTE, dllPages := s.dllPages + n)
      requires s.dllTables <= noOfPTE && (s.dllPages + n - 1) / 1024 < noOfPTE
      requires startPDEForDLL + noOfPTE <= PROCESS_GUI_FRAMEBUFFER_PDE_ID
      modifies mm.pageMap, mm`memory, `at
      ensures ok <==> old(FreeCount()) >= s'.dllTables - s.dllTables + n
      ensures if ok then Standing(s', d) else Valid() && FreeCount() == 0
      ensures ok ==> FreeCount() == old(FreeCount()) - (s'.dllTables - s.dllTables + n)
      ensures ok ==> KeepsImage(old(mm.memory), mm.memory, old(at), at) == true
    {
      ghost var tabled, m0, at0 := s.(dllTables := noOfPTE), mm.memory, at;
      assert tabled.(dllPages := totalNoOfPagesForDLL + n) == s';
      ok := MapDLLTables(noOfPTE, s, tabled, d);
      if ok {
        ghost var m1, at1 := mm.memory, at;
        ok := MapDLLPages(totalNoOfPagesForDLL + n, tabled, s', d);
        if ok { KeptTwice(m0, m1, mm.memory, at0, at1, at); }
      }
    }

    /**
     A library is mapped right behind the one before it, its pages in order from the load address on; a table page is
     taken whenever the last one is full.
     */
    method MapDLLPagesToProcess(n: nat, ghost s: Shape, ghost s': Shape, ghost d: Dims)
      returns (ok: bool, loadAddress: nat)
      requires Standing(s, d) && Finished(s, d) && n > 0
      requires startPDEForDLL + GetPTESizeInPages(totalNoOfPagesForDLL + n) <= PROCESS_GUI_FRAMEBUFFER_PDE_ID
      requires s' == WithLibrary(s, n)
      modifies mm.pageMap, mm`memory, `at, `noOfPagesForDLLPTE, `totalNoOfPagesForDLL
      ensures ok <==> old(FreeCount()) >= s'.dllTables - s.dllTables + n
      ensures if ok then Standing(s', d) && Finished(s', d) else Valid() && FreeCount() == 0
      ensures ok ==> loadAddress == DLLAddress(startPDEForDLL, s.dllPages, 0)
      ensures ok ==> FreeCount() == old(FreeCount()) - (s'.dllTables - s.dllTables + n)
      ensures ok ==> KeepsImage(old(mm.memory), mm.memory, old(at), at) == true
    {
      var noOfPTE := GetPTESizeInPages(totalNoOfPagesForDLL + n);
      TablesFor(totalNoOfPagesForDLL, n);
      ok := MapDLL(n, noOfPTE, s, s', d);
      loadAddress := LoadAddress();
      if ok { CountDLL(n, noOfPTE, s, s', d); }
    }

    function LoadAddress(): (r: nat)
      reads `startPDEForDLL, `totalNoOfPagesForDLL
      ensures r == DLLAddress(startPDEForDLL, totalNoOfPagesForDLL, 0)
    {
      startPDEForDLL * 4096 * 1024 + totalNoOfPagesForDLL * 4096
    }

    method CountDLL(n: nat, noOfPTE: nat, ghost s: Shape, ghost s': Shape, ghost d: Dims)
      requires Standing(s', d) && Finished(s, d) && noOfPTE == (s.dllPages + n + 1023) / 1024
      requires s' == s.(dllTables := noOfPTE, dllPages := s.dllPages + n)
      modifies `noOfPagesForDLLPTE, `totalNoOfPagesForDLL
      ensures Standing(s', d) && Finished(s', d)
    {
      noOfPagesForDLLPTE := noOfPTE;
      totalNoOfPagesForDLL := totalNoOfPagesForDLL + n;
    }

    /** Maps the libraries one after another. */
    method MapLibraries(libraries: seq<nat>, ghost s: Shape, ghost d: Dims) returns (ok: bool, loads: seq<nat>)
      requires Standing(s, d) && Finished(s, d) && s.dllTables == s.dllPages == 0 && AllMapped(libraries)
      requires startPDEForDLL + TablesOf(Total(libraries)) <= PROCESS_GUI_FRAMEBUFFER_PDE_ID
      modifies mm.pageMap, mm`memory, `at, `noOfPagesForDLLPTE, `totalNoOfPagesForDLL
      ensures ok <==> old(FreeCount()) >= Total(libraries) + TablesOf(Total(libraries))
      ensures if ok then Standing(WithLibraries(s, libraries), d) && Finished(WithLibraries(s, libraries), d)
              else Valid() && FreeCount() == 0
      ensures ok ==> LoadedAt(startPDEForDLL, libraries, loads) && KeepsImage(old(mm.memory), mm.memory, old(at), at)
    {
      ghost var count, m0, at0 := FreeCount(), mm.memory, at;
      ok, loads := true, [];
      ghost var now := s;
      for i := 0 to |libraries|
        invariant ok && now == WithLibraries(s, libraries[..i]) && Standing(now, d) == true && Finished(now, d)
        invariant FreeCount() + Total(libraries[..i]) + TablesOf(Total(libraries[..i])) == count
        invariant LoadedAt(startPDEForDLL, libraries[..i], loads) && KeepsImage(m0, mm.memory, at0, at) == true
      {
        ghost var next, m, was := WithLibrary(now, libraries[i]), mm.memory, at;
        OneLibraryMore(s, libraries, i);
        var loadAddress;
        ok, loadAddress := MapDLLPagesToProcess(libraries[i], now, next, d);
        if !ok { return; }
        KeptTwice(m0, m, mm.memory, at0, was, at);
        LoadedOneMore(startPDEForDLL, libraries, i, loads, loadAddress);
        loads := loads + [loadAddress];
        now := next;
      }
      assert libraries[..|libraries|] == libraries;
    }

    /** The pages a process with `libraries` needs in all. */
    function Needed(libraries: seq<nat>): nat
      requires noOfPagesForProcess > 0
    {
      1 + NoOfPagesForPTE() + 1 + noOfPagesForProcess + STACK_PAGES + Total(libraries) + TablesOf(Total(libraries))
    }

    /**
     A directory and the tables of the kernel's half; as few tables as map the image and as few pages as hold it; a
     table and nine pages for the stack; the libraries and as few tables as map them.
     */
    lemma NeededIs(libraries: seq<nat>, bytes: nat) returns (pages: nat, tables: nat, dllTables: nat)
      requires bytes > 0 && noOfPagesForProcess == GetProcessSizeInPages(bytes)
      ensures 4096 * pages - 4096 < bytes <= 4096 * pages
      ensures var all := processBase / 4096 % 1024 + pages; 1024 * tables - 1024 < all <= 1024 * tables
      ensures 1024 * dllTables - 1024 < Total(libraries) <= 1024 * dllTables
      ensures Needed(libraries) == 1 + 32 + tables + pages + 1 + 9 + Total(libraries) + dllTables
    {
      PagesLeast(bytes);
      TablesLeast(noOfPagesForProcess + PageBase());
      TablesLeast(Total(libraries));
      pages, tables, dllTables := noOfPagesForProcess, Tables(), TablesOf(Total(libraries));
    }

    /** The space of a process stands, with its image copied and its libraries mapped. */
    ghost predicate Stood(libraries: seq<nat>, image: seq<nat>, d: Dims)
      requires noOfPagesForProcess > 0
      reads this, mm, mm.pageMap
    {
      Standing(WithLibraries(Built(), libraries), d) && Copied(mm.memory, at, image, |image|)
    }

    /** The space, the copy of the image and the libraries. */
    method Build(image: seq<nat>, libraries: seq<nat>) returns (built: bool, loads: seq<nat>)
      requires Valid() && Bounded() && at == map[]
      requires |image| > 0 && noOfPagesForProcess == GetProcessSizeInPages(|image|)
      requires noOfPagesForDLLPTE == totalNoOfPagesForDLL == 0 && AllMapped(libraries)
      requires 32 + PdeBase() + Tables() + TablesOf(Total(libraries)) <= PROCESS_GUI_FRAMEBUFFER_PDE_ID
      modifies mm.pageMap, mm`memory, `at, `directory, `stackPTE
      modifies `startPDEForDLL, `noOfPagesForDLLPTE, `totalNoOfPagesForDLL
      ensures built <==> old(FreeCount()) >= Needed(libraries)
      ensures if built then
                && startPDEForDLL == 32 + PdeBase() + Tables() && Stood(libraries, image, MyDims(startPDEForDLL))
                && Finished(WithLibraries(Built(), libraries), MyDims(startPDEForDLL))
                && LoadedAt(startPDEForDLL, libraries, loads)
              else FreeCount() == 0
    {
      loads := [];
      built := AllocateAddressSpace();
      if !built { return; }
      ghost var d := MyDims(startPDEForDLL);
      CopyElfImage(image, Built(), d);
      ghost var m, was := mm.memory, at;
      built, loads := MapLibraries(libraries, Built(), d);
      if built { CopiedKept(m, mm.memory, was, at, image, |image|); }
    }

    /**
     A process with its image and its libraries comes and goes.  It is built exactly when enough pages are free; then
     its space stood as laid out on pages that were free, every byte of the image in place, every library at its load
     address, and the bitmap is as it was, bit for bit.
     */
    method BuildAndTearDown(image: seq<nat>, libraries: seq<nat>)
      returns (built: bool, loads: seq<nat>, ghost stood: Memory, ghost roles: Roles, ghost taken: seq<bool>)
      requires Valid() && Bounded() && at == map[] && before == mm.pageMap[..] && processBase % 4096 == 0
      requires |image| > 0 && noOfPagesForProcess == GetProcessSizeInPages(|image|)
      requires noOfPagesForDLLPTE == totalNoOfPagesForDLL == 0 && AllMapped(libraries)
      requires 32 + PdeBase() + Tables() + TablesOf(Total(libraries)) <= PROCESS_GUI_FRAMEBUFFER_PDE_ID
      modifies this, mm, mm.pageMap
      ensures built <==> old(FreeCount()) >= Needed(libraries)
      ensures built ==> mm.pageMap[..] == old(mm.pageMap[..])
      ensures built ==> LoadedAt(startPDEForDLL, libraries, loads) && Copied(stood, roles, image, |image|)
      ensures built ==>
                && Layout(stood, roles, WithLibraries(Built(), libraries), MyDims(startPDEForDLL))
                && Shaped(roles, WithLibraries(Built(), libraries)) && Injective(roles)
                && Claims(old(mm.pageMap[..]), taken, roles, mm.resvSize * 32)
      ensures built ==>
                && Directory in roles
                && AllFound(stood, roles, roles[Directory], mm.kernelDirectory, processBase, image,
                  startPDEForDLL * 0x40_0000, Total(libraries)) == true
      ensures !built ==> FreeCount() == 0
    {
      built, loads := Build(image, libraries);
      stood, roles, taken := mm.memory, at, mm.pageMap[..];
      if built {
        Found(image, libraries);
        TearDownRestores(WithLibraries(Built(), libraries), MyDims(startPDEForDLL));
      }
    }

    /** What the process finds while its space stands. */
    lemma Found(image: seq<nat>, libraries: seq<nat>)
      requires Bounded() && processBase % 4096 == 0 && startPDEForDLL == 32 + PdeBase() + Tables()
      requires |image| > 0 && noOfPagesForProcess == GetProcessSizeInPages(|image|)
      requires startPDEForDLL + TablesOf(Total(libraries)) <= PROCESS_GUI_FRAMEBUFFER_PDE_ID
      requires Stood(libraries, image, MyDims(startPDEForDLL))
      ensures Directory in at &&
              AllFound(mm.memory, at, at[Directory], mm.kernelDirectory, processBase, image,
                startPDEForDLL * 0x40_0000, Total(libraries)) == true
    {
      LibraryShape(Built(), libraries);
      FoundInLayout(mm.memory, at, WithLibraries(Built(), libraries), MyDims(startPDEForDLL), processBase, image);
    }

    method TearDownRestores(ghost s: Shape, ghost d: Dims)
      requires Standing(s, d) && Finished(s, d)
      modifies mm.pageMap
      ensures mm.pageMap[..] == before
    {
      ghost var b1 := mm.pageMap[..];
      StandingAlive(s, d);
      DeAllocateResources(s, d);
      AllReturned(before, b1, mm.pageMap[..], at, mm.resvSize * 32, s);
    }
  }
}
