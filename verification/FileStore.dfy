/**
 File bytes over sector chains: the write path that seeks, extends, patches and coalesces, and the
 batched read path started from the descriptor's remembered sector.
 */
module FileStore {
  import opened Volume
  import opened Wrappers

  datatype Node = Node(isDirectory: bool, start: nat, size: nat)

  /** Where a write goes: `base` sectors into the file, onto the walk `chain` from `start`. */
  datatype Landing = Landing(base: nat, chain: seq<nat>, start: nat)

  /** A position a descriptor remembers: the index of a sector in its file, and the sector. */
  datatype Mark = Mark(index: int, sector: nat)
  {
    /** It really is a position of the chain, or says that it is empty. */
    predicate Ok(c: seq<nat>) {
      || index < 0
      || (index < |c| && c[index] == sector)
      || (c == [] && index == 0 && sector == EOC)
    }

    /** A seek to index `want` goes along the file's own chain. */
    predicate Own(c: seq<nat>, want: nat) {
      Ok(c) || index > want
    }

    /** An end mark is remembered of a file that has sectors: another descriptor gave it some. */
    predicate Refused(c: seq<nat>, want: nat) {
      !Own(c, want) && c != [] && sector == EOC
    }

    /** Where a seek goes: along the file's own chain, or along the walk `e` from the remembered sector. */
    function Way(c: seq<nat>, e: seq<nat>, start: nat, want: nat): Landing {
      if Own(c, want) || index < 0 then Landing(0, c, start) else Landing(index, e, sector)
    }

    /** A write behind the end of that walk to a file without sectors begins a chain of its own. */
    function Target(c: seq<nat>, e: seq<nat>, start: nat, want: nat): Landing {
      var l := Way(c, e, start, want);
      if !Own(c, want) && c == [] && l.base + |l.chain| <= want then Landing(l.base + |l.chain|, [], EOC) else l
    }

    ghost predicate WayKnown(links: seq<nat>, c: seq<nat>, e: seq<nat>, want: nat) {
      Own(c, want) || IsWalk(links, sector, e)
    }
  }

  class FileDescriptor {
    var offset: nat
    var lastReadSectorIndex: int
    var lastReadSectorNo: nat

    ghost function Now(): Mark reads this {
      Mark(lastReadSectorIndex, lastReadSectorNo)
    }

    /** A file is opened at its first sector, or at the end mark when it has none. */
    constructor (start: nat)
      ensures offset == 0 && Now() == Mark(0, start)
    {
      offset, lastReadSectorIndex, lastReadSectorNo := 0, 0, start;
    }

    method SetLastReadSector(index: int, sector: nat)
      modifies this`lastReadSectorIndex, this`lastReadSectorNo
      ensures Now() == Mark(index, sector)
    {
      lastReadSectorIndex, lastReadSectorNo := index, sector;
    }
  }

  /** The directory slot of one file, as it stands on disk. */
  class DirEntry {
    var node: Node
  }

  ghost predicate InRange(c: seq<nat>, n: nat) {
    forall i :: 0 <= i < |c| ==> c[i] < n
  }

  ghost function ByteAt(data: seq<Sector>, c: seq<nat>, p: nat): byte
    requires InRange(c, |data|) && p / 512 < |c|
  {
    data[c[p / 512]][p % 512]
  }

  ghost function Content(data: seq<Sector>, c: seq<nat>, size: nat): seq<byte>
    requires InRange(c, |data|) && size <= 512 * |c|
  {
    seq(size, p requires 0 <= p < size => ByteAt(data, c, p))
  }

  /** `was` with the bytes from `o` on replaced by `d`, growing when `d` runs past the end. */
  ghost function Overwrite(was: seq<byte>, o: nat, d: seq<byte>): seq<byte>
    requires o <= |was|
  {
    was[..o] + d + (if o + |d| < |was| then was[o + |d|..] else [])
  }

  function SectorsFor(bytes: nat): nat { (bytes + 512 - 1) / 512 }

  lemma LastSector(bytes: nat, i: nat)
    requires 512 * i < bytes <= 512 * (i + 1)
    ensures SectorsFor(bytes) == i + 1
  {
  }

  function Max(a: nat, b: nat): nat { if a < b then b else a }

  function Least(a: nat, b: nat): nat { if a < b then a else b }

  // ---------------------------------------------------------------- growing a chain

  /** `cc` extends `c` with sectors that were free, and nothing outside `cc` changed in the table. */
  ghost predicate Grown(was: seq<nat>, c: seq<nat>, links: seq<nat>, start: nat, cc: seq<nat>) {
    && |links| == |was|
    && c <= cc
    && IsWalk(links, start, cc)
    && (forall i :: |c| <= i < |cc| ==> 0 < cc[i] && was[cc[i]] == 0)
    && (forall s :: 0 <= s < |was| && s !in cc ==> links[s] == was[s])
    && |FreeSet(links)| + |cc| == |FreeSet(was)| + |c|
  }

  lemma ChainInUse(links: seq<nat>, start: nat, c: seq<nat>)
    requires IsChain(links, start, c)
    ensures forall i :: 0 <= i < |c| ==> links[c[i]] != 0
  {
    forall i | 0 <= i < |c| ensures links[c[i]] != 0 {
      if i < |c| - 1 { assert links[c[i]] == c[i + 1]; }
    }
  }

  /** Allocating a sector and linking it behind the last one grows the chain by that sector. */
  lemma GrowStep(was: seq<nat>, c: seq<nat>, links: seq<nat>, start: nat, cc: seq<nat>, s: nat, links': seq<nat>)
    requires |was| < EOC && Grown(was, c, links, start, cc) && AllPositive(c)
    requires 0 < s < |links| && links[s] == 0
    requires links' == if cc == [] then links[s := EOC] else links[s := EOC][cc[|cc| - 1] := s]
    ensures s !in cc
    ensures Grown(was, c, links', if cc == [] then s else start, cc + [s])
  {
    ChainInUse(links, start, cc);
    ChainDistinct(links, start, cc);
    var ee := cc + [s];
    assert was[s] == 0;
    assert FreeSet(links') == FreeSet(links) - {s};
    assert s in FreeSet(links);
    forall i | 0 <= i < |ee| - 1 ensures links'[ee[i]] == ee[i + 1] {
      if i < |cc| - 1 { assert links[cc[i]] == cc[i + 1]; }
    }
    forall x | 0 <= x < |was| && x !in ee ensures links'[x] == was[x] {
      assert x !in cc;
      assert x != s by { assert ee[|cc|] == s; }
    }
  }

  // ---------------------------------------------------------------- what one write owes

  /** A write of `d` at `o` to the file of `size` bytes held by chain `c` in `data`. */
  datatype Request = Request(data: seq<Sector>, c: seq<nat>, size: nat, o: nat, d: seq<byte>)
  {
    ghost predicate Ok() {
      InRange(c, |data|) && size <= 512 * |c| && d != []
    }

    /** A walk that the write has to extend is one over sectors in use. */
    ghost predicate MayGrow() {
      AllPositive(c) || SectorsFor(o + |d|) <= |c|
    }

    /** By this offset and size, old bytes are read before the last sector is patched. */
    ghost predicate Told(at: nat, fileSize: nat) {
      at % 512 == o % 512 && (o + |d| < size ==> at + |d| < fileSize)
    }

    ghost predicate GoodByte(p: nat, b: byte) requires Ok() {
      && (o <= p < o + |d| ==> b == d[p - o])
      && (p < o ==> b == if p / 512 < |c| then ByteAt(data, c, p) else 0)
      && (o + |d| <= p < size ==> b == ByteAt(data, c, p))
    }

    /** What must survive even a failing write. */
    ghost predicate SafeByte(p: nat, b: byte) requires Ok() {
      (p < o || o + |d| <= p) && p < size ==> b == ByteAt(data, c, p)
    }

    ghost predicate Good(j: nat, s: Sector) requires Ok() {
      forall k :: 0 <= k < 512 ==> GoodByte(512 * j + k, s[k])
    }

    ghost predicate Safe(j: nat, s: Sector) requires Ok() {
      forall k :: 0 <= k < 512 ==> SafeByte(512 * j + k, s[k])
    }

    lemma GoodIsSafe(j: nat, s: Sector)
      requires Ok() && Good(j, s)
      ensures Safe(j, s)
    {
      forall k | 0 <= k < 512 ensures SafeByte(512 * j + k, s[k]) {
        assert GoodByte(512 * j + k, s[k]);
      }
    }

    lemma UntouchedIsSafe(j: nat)
      requires Ok() && j < |c|
      ensures Safe(j, data[c[j]])
    {
    }

    /** A sector outside the written span may stay as it was. */
    lemma UntouchedIsGood(j: nat)
      requires Ok() && j < |c| && (512 * (j + 1) <= o || o + |d| <= 512 * j)
      ensures Good(j, data[c[j]])
    {
    }

    lemma ZeroIsGood(j: nat)
      requires Ok() && |c| <= j && 512 * (j + 1) <= o
      ensures Good(j, ZERO_SECTOR)
    {
    }
  }

  /** `area` holds, along `cc`, finished sectors below index `n` and untouched old ones from there on. */
  ghost predicate Progress(q: Request, area: seq<Sector>, cc: seq<nat>, n: nat)
    requires q.Ok()
  {
    && |area| == |q.data| && q.c <= cc && InRange(cc, |area|)
    && (forall j :: 0 <= j < n && j < |cc| ==> q.Good(j, area[cc[j]]))
    && (forall j :: n <= j < |q.c| ==> area[cc[j]] == q.data[q.c[j]])
    && (forall s :: 0 <= s < |area| && s !in cc ==> area[s] == q.data[s])
  }

  ghost predicate Harmless(q: Request, area: seq<Sector>, cc: seq<nat>)
    requires q.Ok()
  {
    && |area| == |q.data| && q.c <= cc && InRange(cc, |area|)
    && (forall j :: 0 <= j < |q.c| ==> q.Safe(j, area[cc[j]]))
    && (forall s :: 0 <= s < |area| && s !in cc ==> area[s] == q.data[s])
  }

  lemma ProgressIsHarmless(q: Request, area: seq<Sector>, cc: seq<nat>, n: nat)
    requires q.Ok() && Progress(q, area, cc, n)
    ensures Harmless(q, area, cc)
  {
    forall j | 0 <= j < |q.c| ensures q.Safe(j, area[cc[j]]) {
      if j < n { q.GoodIsSafe(j, area[cc[j]]); } else { q.UntouchedIsSafe(j); }
    }
  }

  /** Writing a finished sector at index `n` moves the frontier by one. */
  lemma ProgressStep(q: Request, area: seq<Sector>, cc: seq<nat>, n: nat, s: Sector)
    requires q.Ok() && Progress(q, area, cc, n) && n < |cc| && Distinct(cc) && q.Good(n, s)
    ensures Progress(q, area[cc[n] := s], cc, n + 1)
  {
  }

  lemma ProgressGrow(q: Request, area: seq<Sector>, cc: seq<nat>, n: nat, s: nat)
    requires q.Ok() && Progress(q, area, cc, n) && n == |cc| && s < |area|
    ensures Progress(q, area, cc + [s], n)
  {
    var ee := cc + [s];
    forall x | 0 <= x < |area| && x !in ee ensures area[x] == q.data[x] {
      assert x !in cc;
    }
  }

  lemma HarmlessGrow(q: Request, area: seq<Sector>, cc: seq<nat>, s: nat)
    requires q.Ok() && Harmless(q, area, cc) && s < |area|
    ensures Harmless(q, area, cc + [s])
  {
    var ee := cc + [s];
    forall x | 0 <= x < |area| && x !in ee ensures area[x] == q.data[x] {
      assert x !in cc;
    }
  }

  // ---------------------------------------------------------------- writing

  /** Where the seek stops: at the wanted index of the walk, or at its end with its last sector. */
  ghost predicate AtIndex(base: nat, c: seq<nat>, want: nat, index: nat, cur: nat, prev: nat) {
    || (base <= index == want < base + |c| && cur == c[index - base])
    || (cur == EOC && index == base + |c| <= want && (c != [] ==> prev == c[|c| - 1]))
  }

  /** From the remembered sector, or from the file's first when that lies behind the wanted one. */
  method SeekForWrite(vol: Volume, fd: FileDescriptor, node: Node, want: nat, ghost c: seq<nat>, ghost e: seq<nat>)
    returns (index: nat, cur: nat, prev: nat)
    requires vol.Valid() && IsChain(vol.links, node.start, c) && fd.Now().WayKnown(vol.links, c, e, want)
    ensures var l := fd.Now().Way(c, e, node.start, want);
            AtIndex(l.base, l.chain, want, index, cur, prev) && (cur == EOC ==> (prev == EOC <==> l.chain == []))
  {
    prev := EOC;
    var i := fd.lastReadSectorIndex;
    cur := fd.lastReadSectorNo;
    if i < 0 || i > want {
      i := 0;
      cur := node.start;
    }
    index := i;
    ghost var l := fd.Now().Way(c, e, node.start, want);
    ghost var base, w := l.base, l.chain;
    assert IsWalk(vol.links, l.start, w);
    while index < want && cur != EOC
      invariant base <= index <= want
      invariant if cur == EOC then AtIndex(base, w, want, index, cur, prev) && (prev == EOC <==> w == [])
                else index < base + |w| && cur == w[index - base]
      decreases want - index
    {
      var next := vol.GetSectorEntryValue(cur);
      assert index < base + |w| - 1 ==> vol.links[w[index - base]] == w[index - base + 1];
      index := index + 1;
      prev := cur;
      cur := next.value;
    }
  }

  /** One allocation, linked behind the chain unless it is the first: None when the volume is full. */
  method AppendSector(vol: Volume, prev: nat, first: bool, ghost start: nat, ghost was: seq<nat>, ghost c: seq<nat>,
                      ghost cc: seq<nat>)
    returns (s: Option<nat>, ghost start': nat)
    requires vol.Valid() && Grown(was, c, vol.links, start, cc) && AllPositive(c) && (first <==> cc == [])
    requires cc != [] ==> prev == cc[|cc| - 1]
    modifies vol`links, vol`freePool
    ensures vol.Valid()
    ensures s.None? ==> FreeSet(vol.links) == {} && start' == start && Grown(was, c, vol.links, start, cc)
    ensures s.Some? ==> s.value !in cc && Grown(was, c, vol.links, start', cc + [s.value])
    ensures s.Some? ==> s.value < |vol.links| && start' == if first then s.value else start
  {
    start' := start;
    ghost var links0 := vol.links;
    s := vol.AllocateSector();
    if s.None? { return; }
    if first {
      start' := s.value;
    } else {
      ChainInUse(links0, start, cc);
      assert vol.links[prev] != 0;
      var ok := vol.SetSectorEntryValue(prev, s.value);
    }
    GrowStep(was, c, links0, start, cc, s.value, vol.links);
  }

  /** The volume part way through a write: chain `cc`, finished below index `n`. */
  ghost predicate Midway(q: Request, was: seq<nat>, links: seq<nat>, data: seq<Sector>, start: nat, cc: seq<nat>,
                         n: nat)
    requires q.Ok()
  {
    Grown(was, q.c, links, start, cc) && Progress(q, data, cc, n)
  }

  /** What an extension made the descriptor remember: its last sector, if there is any. */
  ghost predicate Extension(was: Mark, m: Mark, base: nat, c: seq<nat>, cc: seq<nat>) {
    c <= cc && m == if |cc| == |c| then was else Mark(base + |cc| - 1, cc[|cc| - 1])
  }

  /** On the way to the sector the write starts in: the walk so far, zero-filled behind its old end. */
  ghost predicate Extending(q: Request, was: seq<nat>, links: seq<nat>, data: seq<Sector>, l: Landing, from: nat,
                            cc: seq<nat>, was0: Mark, m: Mark)
  {
    && q.Ok() && AllPositive(q.c) && q.c == l.chain && (l.start == EOC <==> q.c == []) && |cc| <= q.o / 512 + 1
    && Midway(q, was, links, data, from, cc, Least(|cc|, q.o / 512)) && Extension(was0, m, l.base, q.c, cc)
    && (l.start != EOC ==> from == l.start)
  }

  lemma ExtendingFirst(q: Request, was: seq<nat>, data: seq<Sector>, l: Landing, m: Mark)
    requires q.Ok() && AllPositive(q.c) && q.c == l.chain && IsWalk(was, l.start, q.c) && |was| == |data| < EOC
    requires data == q.data && |q.c| <= q.o / 512
    ensures Extending(q, was, was, data, l, l.start, q.c, m, m) == true
  {
    forall j | 0 <= j < |q.c| ensures q.Good(j, data[q.c[j]]) { q.UntouchedIsGood(j); }
  }

  lemma ExtendingOn(q: Request, was: seq<nat>, links0: seq<nat>, links: seq<nat>, data: seq<Sector>, l: Landing,
                    from: nat, cc: seq<nat>, was0: Mark, m0: Mark, s: nat, from': nat)
    requires Extending(q, was, links0, data, l, from, cc, was0, m0) && |cc| <= q.o / 512 && |links| < EOC
    requires s < |data| && Grown(was, q.c, links, from', cc + [s]) && from' == if cc == [] then s else from
    ensures Extending(q, was, links, data[s := ZERO_SECTOR], l, from', cc + [s], was0, Mark(l.base + |cc|, s)) == true
  {
    ProgressGrow(q, data, cc, |cc|, s);
    ChainDistinct(links, from', cc + [s]);
    ZeroProgress(q, data, cc, s);
  }

  /** One zero-filled sector more, which the descriptor remembers. */
  method AppendZeroSector(vol: Volume, fd: FileDescriptor, start: nat, index: nat, prev: nat, ghost l: Landing,
                          ghost from: nat, ghost q: Request, ghost was: seq<nat>, ghost cc: seq<nat>, ghost was0: Mark)
    returns (s: Option<nat>, start': nat, ghost from': nat)
    requires vol.Valid() && |cc| <= q.o / 512 && (start == EOC <==> cc == []) && index == l.base + |cc|
    requires Extending(q, was, vol.links, vol.data, l, from, cc, was0, fd.Now()) == true
    requires cc != [] ==> prev == cc[|cc| - 1]
    modifies vol, fd`lastReadSectorIndex, fd`lastReadSectorNo
    ensures vol.Valid() && start' == if start == EOC && s.Some? then s.value else start
    ensures s.None? ==> FreeSet(vol.links) == {}
    ensures s.None? ==> Extending(q, was, vol.links, vol.data, l, from', cc, was0, fd.Now()) == true
    ensures s.Some? ==> s.value < |vol.data| && vol.data[s.value] == ZERO_SECTOR
    ensures from' == if cc == [] && s.Some? then s.value else from
    ensures s.Some? ==> Extending(q, was, vol.links, vol.data, l, from', cc + [s.value], was0, fd.Now()) == true
  {
    ghost var links0, data0, m0 := vol.links, vol.data, fd.Now();
    start' := start;
    s, from' := AppendSector(vol, prev, start == EOC, from, was, q.c, cc);
    if s.None? { return; }
    if start == EOC { start' := s.value; }
    ExtendingOn(q, was, links0, vol.links, data0, l, from, cc, was0, m0, s.value, from');
    vol.XWrite(s.value, [ZERO_SECTOR]);
    fd.SetLastReadSector(index, s.value);
    assert vol.data == data0[s.value := ZERO_SECTOR];
  }

  lemma ZeroProgress(q: Request, area: seq<Sector>, cc: seq<nat>, s: nat)
    requires q.Ok() && Progress(q, area, cc + [s], |cc|) && |cc| <= q.o / 512 && Distinct(cc + [s]) && |q.c| <= |cc|
    ensures s < |area| && Progress(q, area[s := ZERO_SECTOR], cc + [s], Least(|cc| + 1, q.o / 512)) == true
  {
    var ee := cc + [s];
    assert ee[|cc|] == s;
    if |cc| < q.o / 512 {
      q.ZeroIsGood(|cc|);
      ProgressStep(q, area, ee, |cc|, ZERO_SECTOR);
    }
  }

  /** The do-while that allocates zero-filled sectors up to the one the write starts in. */
  method ExtendToIndex(vol: Volume, fd: FileDescriptor, start: nat, want: nat, index0: nat, prev0: nat,
                       ghost l: Landing, ghost q: Request, ghost was: seq<nat>, ghost was0: Mark)
    returns (ok: bool, start': nat, cur: nat, ghost from: nat, ghost cc: seq<nat>)
    requires vol.Valid() && was == vol.links && was0 == fd.Now()
    requires Extending(q, was, vol.links, vol.data, l, l.start, q.c, was0, was0) == true
    requires AtIndex(l.base, q.c, want, index0, EOC, prev0) && want == l.base + q.o / 512
    requires start == EOC <==> q.c == []
    modifies vol, fd`lastReadSectorIndex, fd`lastReadSectorNo
    ensures vol.Valid() && Extending(q, was, vol.links, vol.data, l, from, cc, was0, fd.Now()) == true
    ensures !ok ==> FreeSet(vol.links) == {} && |cc| <= q.o / 512
    ensures ok ==> |cc| == q.o / 512 + 1 && cur == cc[q.o / 512] < |vol.data| && vol.data[cur] == ZERO_SECTOR
    ensures start' == if start == EOC && cc != [] then from else start
  {
    ok, cur, start', from, cc := true, EOC, start, l.start, q.c;
    var index, prev := index0, prev0;
    while index <= want
      invariant vol.Valid() && index == l.base + |cc| <= want + 1 && (start' == EOC <==> cc == [])
      invariant Extending(q, was, vol.links, vol.data, l, from, cc, was0, fd.Now()) == true
      invariant cc != [] ==> prev == cc[|cc| - 1]
      invariant index > want ==> cur == cc[|cc| - 1] < |vol.data| && vol.data[cur] == ZERO_SECTOR
      invariant start' == if start == EOC && cc != [] then from else start
      decreases want + 1 - index
    {
      var s;
      s, start', from := AppendZeroSector(vol, fd, start', index, prev, l, from, q, was, cc, was0);
      if s.None? { return false, start', EOC, from, cc; }
      cur, prev := s.value, s.value;
      cc := cc + [cur];
      index := index + 1;
    }
  }

  /** The first sector of the write when it starts inside a sector: read, patch, write back. */
  method WriteHead(vol: Volume, cur: nat, pos: nat, d: seq<byte>, ghost q: Request, ghost was: seq<nat>,
                   ghost start: nat, ghost cc: seq<nat>, ghost want: nat)
    returns (n: nat)
    requires vol.Valid() && q.Ok() && d == q.d && want == q.o / 512 && pos == q.o % 512
    requires Midway(q, was, vol.links, vol.data, start, cc, want) == true
    requires want < |cc| && cur == cc[want] && (|q.c| <= want ==> vol.data[cur] == ZERO_SECTOR)
    modifies vol`data
    ensures vol.Valid() && |vol.data| == |q.data|
    ensures n == if |d| <= 512 - pos then |d| else 512 - pos
    ensures Midway(q, was, vol.links, vol.data, start, cc, want + 1)
  {
    var read := vol.XRead(cur, 1);
    var buffer := read[0];
    n := 512 - pos;
    if |d| <= n { n := |d|; }
    var patched: Sector := buffer[..pos] + d[..n] + buffer[pos + n..];
    ghost var data0 := vol.data;
    vol.XWrite(cur, [patched]);
    assert vol.data == data0[cc[want] := patched];
    ChainDistinct(vol.links, start, cc);
    PatchIsGood(q, want, pos, buffer, n, patched);
    ProgressStep(q, data0, cc, want, patched);
  }

  lemma PatchIsGood(q: Request, want: nat, pos: nat, buffer: Sector, n: nat, patched: Sector)
    requires q.Ok() && want == q.o / 512 && pos == q.o % 512
    requires buffer == if want < |q.c| then q.data[q.c[want]] else ZERO_SECTOR
    requires n == if |q.d| <= 512 - pos then |q.d| else 512 - pos
    requires patched == buffer[..pos] + q.d[..n] + buffer[pos + n..]
    ensures q.Good(want, patched)
  {
    forall k | 0 <= k < 512 ensures q.GoodByte(512 * want + k, patched[k]) {
      if k < pos {
        assert patched[k] == buffer[k];
      } else if k < pos + n {
        assert patched[k] == q.d[k - pos];
      } else {
        assert patched[k] == buffer[k];
      }
    }
  }

  /** A sector that the write covers whole. */
  lemma WholeIsGood(q: Request, i: nat, written: nat, s: Sector)
    requires q.Ok() && q.o + written == 512 * i && written + 512 <= |q.d| && s == q.d[written..written + 512]
    ensures q.Good(i, s)
  {
  }

  /** The last sector, patched over what the buffer held; old bytes behind the write were read first. */
  lemma TailIsGood(q: Request, i: nat, buffer: Sector, s: Sector)
    requires q.Ok() && q.o <= 512 * i < q.o + |q.d| < 512 * (i + 1)
    requires i < |q.c| && q.o + |q.d| < q.size ==> buffer == q.data[q.c[i]]
    requires s == q.d[512 * i - q.o..] + buffer[q.o + |q.d| - 512 * i..]
    ensures q.Good(i, s)
  {
    var m := q.o + |q.d| - 512 * i;
    forall k | 0 <= k < 512 ensures q.GoodByte(512 * i + k, s[k]) {
      if k < m {
        assert s[k] == q.d[512 * i - q.o + k];
      } else {
        assert s[k] == buffer[k];
      }
    }
  }

  /** The write loop's state at index `i`, `area` being the data once what is buffered reaches it. */
  ghost predicate BodyAt(q: Request, was: seq<nat>, links: seq<nat>, data: seq<Sector>, area: seq<Sector>, start: nat,
                         cc: seq<nat>, i: nat)
    requires q.Ok()
  {
    && |data| == |q.data| && Midway(q, was, links, area, start, cc, i) && Harmless(q, data, cc)
    && (forall j :: i <= j < |q.c| ==> data[cc[j]] == q.data[q.c[j]])
  }

  ghost predicate InBody(q: Request, was: seq<nat>, vol: Volume, wb: WriteBuffer, start: nat, cc: seq<nat>, i: nat)
    requires q.Ok()
    reads vol, wb
  {
    && vol.Valid() && wb.Valid(|vol.data|)
    && BodyAt(q, was, vol.links, vol.data, wb.Pending(vol.data), start, cc, i)
  }

  /** A finished sector put in place, of which the device may have some. */
  lemma BodyOn(q: Request, was: seq<nat>, links: seq<nat>, data: seq<Sector>, area: seq<Sector>, data': seq<Sector>,
               start: nat, cc: seq<nat>, i: nat, bytes: Sector)
    requires q.Ok() && BodyAt(q, was, links, data, area, start, cc, i) && |links| < EOC
    requires i < |cc| && q.Good(i, bytes) && |data'| == |data| == |area|
    requires forall s :: 0 <= s < |data| ==> data'[s] in {data[s], area[s], area[cc[i] := bytes][s]}
    ensures BodyAt(q, was, links, data', area[cc[i] := bytes], start, cc, i + 1) == true
  {
    ChainDistinct(links, start, cc);
    ProgressIsHarmless(q, area, cc, i);
    ProgressStep(q, area, cc, i, bytes);
    ProgressIsHarmless(q, area[cc[i] := bytes], cc, i + 1);
  }

  lemma BodyNext(q: Request, was: seq<nat>, links: seq<nat>, data: seq<Sector>, area: seq<Sector>, start: nat,
                 cc: seq<nat>, i: nat)
    requires q.Ok() && BodyAt(q, was, links, data, area, start, cc, i + 1) && i < |cc| && |links| < EOC
    ensures cc[i] < |links| && CurrentIs(cc, i + 1, links[cc[i]], cc[i]) == true
  {
    assert i + 1 < |cc| ==> links[cc[i]] == cc[i + 1];
  }

  ghost predicate CurrentIs(cc: seq<nat>, i: nat, cur: nat, prev: nat) {
    if cur == EOC then i == |cc| && cc != [] && prev == cc[i - 1] else i < |cc| && cur == cc[i]
  }

  /** Buffers the finished sector of index `i`. */
  method PutSector(vol: Volume, wb: WriteBuffer, cur: nat, bytes: Sector,
                   ghost q: Request, ghost was: seq<nat>, ghost start: nat, ghost cc: seq<nat>, ghost i: nat)
    requires q.Ok() && InBody(q, was, vol, wb, start, cc, i) == true && i < |cc| && cur == cc[i]
    requires q.Good(i, bytes)
    modifies vol`data, wb
    ensures InBody(q, was, vol, wb, start, cc, i + 1) == true
  {
    ghost var data0, area := vol.data, wb.Pending(vol.data);
    wb.BufferedWrite(vol, cur, bytes);
    BodyOn(q, was, vol.links, data0, area, vol.data, start, cc, i, bytes);
  }

  /** Allocates and links the sector of index `i` when the chain has ended. */
  method NextSector(vol: Volume, wb: WriteBuffer, cur: nat, prev: nat, allocating: bool,
                    ghost start: nat, ghost q: Request, ghost was: seq<nat>, ghost cc: seq<nat>, ghost i: nat)
    returns (s: Option<nat>, ghost ee: seq<nat>)
    requires q.Ok() && InBody(q, was, vol, wb, start, cc, i) && CurrentIs(cc, i, cur, prev)
    requires (allocating ==> cur == EOC) && (cur == EOC ==> AllPositive(q.c))
    modifies vol`links, vol`freePool
    ensures s.None? ==> ee == cc && cur == EOC && FreeSet(vol.links) == {}
    ensures s.Some? ==> i < |ee| && s.value == ee[i] && ee == if cur == EOC then cc + [s.value] else cc
    ensures InBody(q, was, vol, wb, start, ee, i)
  {
    s, ee := Some(cur), cc;
    if cur == EOC || allocating {
      ghost var start';
      s, start' := AppendSector(vol, prev, false, start, was, q.c, cc);
      if s.None? { return; }
      ProgressGrow(q, wb.Pending(vol.data), cc, i, s.value);
      HarmlessGrow(q, vol.data, cc, s.value);
      ee := cc + [s.value];
    }
  }

  /** What the loop owes when it stops: finished, or out of free sectors. */
  ghost predicate BodyDone(q: Request, was: seq<nat>, links: seq<nat>, data: seq<Sector>, start: nat, cc: seq<nat>,
                           ok: bool)
    requires q.Ok()
  {
    var n := SectorsFor(q.o + |q.d|);
    if ok then Midway(q, was, links, data, start, cc, n) && |cc| == Max(|q.c|, n)
    else Grown(was, q.c, links, start, cc) && Harmless(q, data, cc) && FreeSet(links) == {} && |cc| < n
  }

  lemma BodyFinished(q: Request, was: seq<nat>, links: seq<nat>, data: seq<Sector>, start: nat, cc: seq<nat>, i: nat)
    requires q.Ok() && Midway(q, was, links, data, start, cc, i + 1) && i < |cc| <= Max(|q.c|, i + 1)
    requires 512 * i < q.o + |q.d| <= 512 * (i + 1)
    ensures BodyDone(q, was, links, data, start, cc, true) == true
  {
    LastSector(q.o + |q.d|, i);
  }

  datatype Cursor = Cursor(cur: nat, prev: nat, written: nat, allocating: bool)

  ghost predicate CursorOk(q: Request, cc: seq<nat>, i: nat, k: Cursor) {
    && CurrentIs(cc, i, k.cur, k.prev)
    && k.written < |q.d| && q.o + k.written == 512 * i
    && |cc| <= Max(|q.c|, SectorsFor(q.o + |q.d|))
    && (k.allocating ==> k.cur == EOC)
  }

  /** The last sector when it is written in part: read first if old bytes follow, patched, then the flush. */
  method PutTail(vol: Volume, wb: WriteBuffer, cur: nat, buffer0: Sector, d: seq<byte>, written: nat, isNew: bool,
                 o: nat, fileSize: nat, ghost q: Request, ghost was: seq<nat>, ghost start: nat, ghost cc: seq<nat>,
                 ghost i: nat)
    requires q.Ok() && d == q.d && q.Told(o, fileSize)
    requires InBody(q, was, vol, wb, start, cc, i) == true && i < |cc| && cur == cc[i] && (isNew ==> |q.c| <= i)
    requires written < |d| < written + 512 && q.o + written == 512 * i && |cc| <= Max(|q.c|, i + 1)
    modifies vol`data, wb
    ensures vol.Valid() && BodyDone(q, was, vol.links, vol.data, start, cc, true) == true
  {
    var buffer := buffer0;
    if !isNew && o + |d| < fileSize {
      var read := vol.XRead(cur, 1);
      buffer := read[0];
    }
    var patched := d[written..] + buffer[|d| - written..];
    TailIsGood(q, i, buffer, patched);
    PutSector(vol, wb, cur, patched, q, was, start, cc, i);
    wb.Flush(vol);
    BodyFinished(q, was, vol.links, vol.data, start, cc, i);
  }

  /** A sector the write covers whole; answers the sector that follows it. */
  method PutWhole(vol: Volume, wb: WriteBuffer, cur: nat, d: seq<byte>, written: nat,
                  ghost q: Request, ghost was: seq<nat>, ghost start: nat, ghost cc: seq<nat>, ghost i: nat)
    returns (next: nat)
    requires q.Ok() && d == q.d && written + 512 <= |d| && q.o + written == 512 * i
    requires InBody(q, was, vol, wb, start, cc, i) == true && i < |cc| && cur == cc[i]
    modifies vol`data, wb
    ensures InBody(q, was, vol, wb, start, cc, i + 1) == true && CurrentIs(cc, i + 1, next, cur)
    ensures vol.links == old(vol.links)
  {
    var bytes: Sector := d[written..written + 512];
    WholeIsGood(q, i, written, bytes);
    PutSector(vol, wb, cur, bytes, q, was, start, cc, i);
    BodyNext(q, was, vol.links, vol.data, wb.Pending(vol.data), start, cc, i);
    var entry := vol.GetSectorEntryValue(cur);
    next := entry.value;
  }

  /** The bytes of one turn: the patched tail, or a whole sector and the flush when it was the last. */
  method PutBytes(vol: Volume, wb: WriteBuffer, cur: nat, written: nat, allocating: bool, buffer: Sector,
                  d: seq<byte>, o: nat, fileSize: nat, ghost start: nat, ghost q: Request, ghost was: seq<nat>,
                  ghost cc: seq<nat>, ghost i: nat)
    returns (done: bool, next: nat)
    requires q.Ok() && d == q.d && q.Told(o, fileSize)
    requires InBody(q, was, vol, wb, start, cc, i) == true && i < |cc| && cur == cc[i]
    requires allocating ==> |q.c| <= i
    requires written < |d| && q.o + written == 512 * i && |cc| <= Max(|q.c|, SectorsFor(q.o + |d|))
    modifies vol`data, wb
    ensures vol.links == old(vol.links)
    ensures done <==> |d| <= written + 512
    ensures done ==> vol.Valid() && BodyDone(q, was, vol.links, vol.data, start, cc, true) == true
    ensures !done ==> InBody(q, was, vol, wb, start, cc, i + 1) == true && CurrentIs(cc, i + 1, next, cur)
  {
    next := EOC;
    if |d| <= written + 512 { LastSector(q.o + |d|, i); }
    if |d| - written < 512 {
      PutTail(vol, wb, cur, buffer, d, written, allocating, o, fileSize, q, was, start, cc, i);
      return true, next;
    }
    next := PutWhole(vol, wb, cur, d, written, q, was, start, cc, i);
    done := written + 512 == |d|;
    if done {
      wb.Flush(vol);
      BodyFinished(q, was, vol.links, vol.data, start, cc, i);
    }
  }

  lemma NeedsMore(q: Request, cc: seq<nat>, i: nat, k: Cursor)
    requires q.MayGrow() && CursorOk(q, cc, i, k) && k.cur == EOC && q.c <= cc
    ensures AllPositive(q.c)
  {
    assert SectorsFor(q.o + |q.d|) > i;
  }

  /** One turn of the main loop. */
  method WriteOne(vol: Volume, wb: WriteBuffer, k: Cursor, buffer: Sector, d: seq<byte>, o: nat,
                  fileSize: nat, ghost start: nat, ghost q: Request, ghost was: seq<nat>, ghost cc: seq<nat>,
                  ghost i: nat)
    returns (done: bool, ok: bool, k': Cursor, ghost ee: seq<nat>)
    requires q.Ok() && d == q.d && q.Told(o, fileSize) && q.MayGrow() && start != EOC
    requires InBody(q, was, vol, wb, start, cc, i) == true && CursorOk(q, cc, i, k)
    modifies vol, wb
    ensures cc <= ee
    ensures done ==> vol.Valid() && BodyDone(q, was, vol.links, vol.data, start, ee, ok) == true
    ensures !done ==> InBody(q, was, vol, wb, start, ee, i + 1) == true && CursorOk(q, ee, i + 1, k')
    ensures !done ==> k'.written == k.written + 512
  {
    var allocating := k.allocating || k.cur == EOC;
    var s;
    if k.cur == EOC { NeedsMore(q, cc, i, k); }
    s, ee := NextSector(vol, wb, k.cur, k.prev, allocating, start, q, was, cc, i);
    if s.None? { return true, false, k, ee; }
    var next;
    done, next := PutBytes(vol, wb, s.value, k.written, allocating, buffer, d, o, fileSize, start, q, was, ee, i);
    ok := true;
    k' := Cursor(next, s.value, k.written + 512, allocating);
  }

  /** The main loop: whole sectors through the write buffer, a patched last one, then the flush. */
  method WriteBody(vol: Volume, cur: nat, prev: nat, buffer: Sector, written: nat, d: seq<byte>,
                   o: nat, fileSize: nat, ghost start: nat, ghost q: Request, ghost was: seq<nat>,
                   ghost cc0: seq<nat>, ghost i0: nat)
    returns (ok: bool, ghost cc: seq<nat>)
    requires vol.Valid() && q.Ok() && d == q.d && q.Told(o, fileSize) && q.MayGrow() && start != EOC
    requires Midway(q, was, vol.links, vol.data, start, cc0, i0) == true
    requires CursorOk(q, cc0, i0, Cursor(cur, prev, written, false)) == true
    modifies vol
    ensures vol.Valid() && cc0 <= cc && BodyDone(q, was, vol.links, vol.data, start, cc, ok) == true
  {
    ok, cc := true, cc0;
    var wb := new WriteBuffer();
    ghost var i: nat := i0;
    var k := Cursor(cur, prev, written, false);
    var done := false;
    assert wb.Pending(vol.data) == vol.data;
    ProgressIsHarmless(q, vol.data, cc, i);
    while !done
      invariant cc0 <= cc
      invariant !done ==> InBody(q, was, vol, wb, start, cc, i) == true && CursorOk(q, cc, i, k)
      invariant done ==> vol.Valid() && BodyDone(q, was, vol.links, vol.data, start, cc, ok) == true
      decreases !done, |d| - k.written
    {
      done, ok, k, cc := WriteOne(vol, wb, k, buffer, d, o, fileSize, start, q, was, cc, i);
      i := i + 1;
    }
  }

  ghost predicate OnlyChainChanged(links0: seq<nat>, data0: seq<Sector>, links: seq<nat>, data: seq<Sector>,
                                   cc: seq<nat>) {
    && |links| == |links0| == |data| == |data0|
    && forall s :: 0 <= s < |links| && s !in cc ==> links[s] == links0[s] && data[s] == data0[s]
  }

  /** What a finished write leaves: the chain grown by free sectors only, every byte as it should be. */
  ghost predicate Written(q: Request, links0: seq<nat>, links: seq<nat>, data: seq<Sector>, start: nat, cc: seq<nat>)
    requires q.Ok()
  {
    && Extended(q, links0, links, data, start, cc)
    && |cc| == Max(|q.c|, SectorsFor(q.o + |q.d|))
    && forall j :: 0 <= j < |cc| ==> q.Good(j, data[cc[j]])
  }

  /** What a write that ran out of space leaves: bytes outside the written span survive. */
  ghost predicate Interrupted(q: Request, links0: seq<nat>, links: seq<nat>, data: seq<Sector>, start: nat,
                              cc: seq<nat>)
    requires q.Ok()
  {
    && Extended(q, links0, links, data, start, cc)
    && FreeSet(links) == {}
    && forall j :: 0 <= j < |q.c| ==> q.Safe(j, data[cc[j]])
  }

  ghost predicate Extended(q: Request, links0: seq<nat>, links: seq<nat>, data: seq<Sector>, start: nat, cc: seq<nat>) {
    && OnlyChainChanged(links0, q.data, links, data, cc)
    && IsWalk(links, start, cc) && q.c <= cc
    && (forall i :: |q.c| <= i < |cc| ==> 0 < cc[i] && links0[cc[i]] == 0)
    && |FreeSet(links)| + |cc| == |FreeSet(links0)| + |q.c|
  }

  /** A write through a stale hint fails; a sector taken for it, if there was one, is in no chain. */
  ghost predicate LeakedOne(links0: seq<nat>, links: seq<nat>) {
    if FreeSet(links0) == {} then links == links0
    else exists s :: s in FreeSet(links0) && links == links0[s := EOC]
  }

  /** The sector the write starts in is there, and all before it are finished. */
  ghost predicate Begun(q: Request, was: seq<nat>, links: seq<nat>, data: seq<Sector>, start: nat, cc: seq<nat>,
                        cur: nat)
  {
    && q.Ok() && Midway(q, was, links, data, start, cc, q.o / 512) && start != EOC
    && q.o / 512 < |cc| <= Max(|q.c|, q.o / 512 + 1) && cur == cc[q.o / 512] < |data|
  }

  lemma FirstCursor(q: Request, was: seq<nat>, links: seq<nat>, data: seq<Sector>, start: nat, cc: seq<nat>, cur: nat)
    requires Begun(q, was, links, data, start, cc, cur) && |links| < EOC
    ensures q.o % 512 == 0 ==> CursorOk(q, cc, q.o / 512, Cursor(cur, cur, 0, false)) == true
    ensures q.o / 512 + 1 <= SectorsFor(q.o + |q.d|)
  {
  }

  /** Behind the first sector, when the write goes on. */
  lemma HeadCursor(q: Request, was: seq<nat>, links: seq<nat>, data: seq<Sector>, start: nat, cc: seq<nat>, want: nat,
                   written: nat)
    requires q.Ok() && Midway(q, was, links, data, start, cc, want + 1) && |links| < EOC && want == q.o / 512
    requires want < |cc| <= Max(|q.c|, want + 1) && written == 512 - q.o % 512 < |q.d|
    ensures cc[want] < |links|
    ensures CursorOk(q, cc, want + 1, Cursor(links[cc[want]], cc[want], written, false)) == true
  {
    assert want + 1 < |cc| ==> links[cc[want]] == cc[want + 1];
    assert SectorsFor(q.o + |q.d|) >= want + 1;
  }

  /** The part of a write that follows the seek, from the sector of index `want` on. */
  method WriteFromStart(vol: Volume, cur0: nat, d: seq<byte>, o: nat, fileSize: nat, buffer: Sector,
                        ghost start: nat, ghost q: Request, ghost was: seq<nat>, ghost cc0: seq<nat>, ghost want: nat)
    returns (ok: bool, ghost cc: seq<nat>)
    requires vol.Valid() && q.Ok() && d == q.d && q.Told(o, fileSize) && q.MayGrow() && want == q.o / 512
    requires Begun(q, was, vol.links, vol.data, start, cc0, cur0) == true
    requires |q.c| <= want ==> vol.data[cur0] == ZERO_SECTOR
    modifies vol
    ensures vol.Valid() && cc0 <= cc && BodyDone(q, was, vol.links, vol.data, start, cc, ok) == true
  {
    var cur, prev, written := cur0, cur0, 0;
    ghost var i := want;
    FirstCursor(q, was, vol.links, vol.data, start, cc0, cur0);
    if o % 512 != 0 {
      written := WriteHead(vol, cur, o % 512, d, q, was, start, cc0, want);
      i := want + 1;
      if written == |d| {
        BodyFinished(q, was, vol.links, vol.data, start, cc0, want);
        return true, cc0;
      }
      HeadCursor(q, was, vol.links, vol.data, start, cc0, want, written);
      var next := vol.GetSectorEntryValue(cur);
      prev := cur;
      cur := next.value;
    }
    ok, cc := WriteBody(vol, cur, prev, buffer, written, d, o, fileSize, start, q, was, cc0, i);
  }

  /** The write as one to the file that the walk would be. */
  ghost function Landed(data: seq<Sector>, l: Landing, size: nat, o: nat, d: seq<byte>): Request
    requires 512 * l.base <= o
  {
    var rest := if size < 512 * l.base then 0 else size - 512 * l.base;
    Request(data, l.chain, if rest <= 512 * |l.chain| then rest else 512 * |l.chain|, o - 512 * l.base, d)
  }

  lemma TargetIsWalk(links: seq<nat>, m: Mark, c: seq<nat>, e: seq<nat>, start: nat, o: nat, l: Landing)
    requires IsChain(links, start, c) && m.WayKnown(links, c, e, o / 512) && l == m.Target(c, e, start, o / 512)
    ensures IsWalk(links, l.start, l.chain) && 512 * l.base <= o
  {
  }

  /** What a write makes the descriptor remember: where it started, or the last sector there was. */
  ghost predicate Remembers(l: Landing, want: nat, free: nat, cc: seq<nat>, was: Mark, m: Mark) {
    if want < l.base + |l.chain| + free then l.base <= want < l.base + |cc| && m == Mark(want, cc[want - l.base])
    else if free > 0 then cc != [] && m == Mark(l.base + |cc| - 1, cc[|cc| - 1])
    else m == was
  }

  /** What a write comes to, by the request it is to its walk. */
  ghost predicate Ended(q: Request, links0: seq<nat>, links: seq<nat>, data: seq<Sector>, start: nat, cc: seq<nat>,
                        l: Landing, node: Node, node': Node, ok: bool)
  {
    && q.Ok() && node' == node.(start := if l.start == EOC then start else node.start)
    && (l.start != EOC ==> start == l.start)
    && (ok <==> SectorsFor(q.o + |q.d|) <= |q.c| + |FreeSet(links0)|)
    && if ok then Written(q, links0, links, data, start, cc) else Interrupted(q, links0, links, data, start, cc)
  }

  ghost predicate Starts(q: Request, l: Landing, at: nat, size: nat, want: nat) {
    q.Ok() && q.MayGrow() && q.Told(at, size) && q.c == l.chain && want == l.base + q.o / 512
  }

  lemma LandedStarts(links: seq<nat>, data: seq<Sector>, l: Landing, size: nat, o: nat, d: seq<byte>)
    requires IsWalk(links, l.start, l.chain) && |links| == |data| && 512 * l.base <= o && d != []
    requires MayExtend(l, o, |d|)
    ensures Starts(Landed(data, l, size, o, d), l, o, size, o / 512)
  {
    var q := Landed(data, l, size, o, d);
    assert o == 512 * l.base + q.o;
    NeedShifts(l, o, |d|, q.o);
  }

  lemma GrowsBehind(q: Request)
    requires q.MayGrow() && |q.c| <= q.o / 512 && q.d != []
    ensures AllPositive(q.c)
  {
    assert SectorsFor(q.o + |q.d|) > q.o / 512;
  }

  ghost predicate Tried(q: Request, links0: seq<nat>, links: seq<nat>, data: seq<Sector>, start: nat, cc: seq<nat>,
                        c: seq<nat>, l: Landing, node: Node, node': Node, o: nat, was: Mark, m: Mark, ok: bool)
  {
    if was.Refused(c, o / 512) then
      !ok && node' == node && data == q.data && m == was && LeakedOne(links0, links)
    else
      && Ended(q, links0, links, data, start, cc, l, node, node', ok)
      && Remembers(l, o / 512, |FreeSet(links0)|, cc, was, m)
  }

  method ActualFileWrite(vol: Volume, fd: FileDescriptor, node: Node, d: seq<byte>, buffer: Sector, ghost c: seq<nat>,
                         ghost e: seq<nat>, ghost l: Landing, ghost q: Request)
    returns (ok: bool, node': Node, ghost start: nat, ghost cc: seq<nat>)
    requires vol.Valid() && IsChain(vol.links, node.start, c) && q.data == vol.data && q.d == d
    requires fd.Now().WayKnown(vol.links, c, e, fd.offset / 512)
    requires l == fd.Now().Target(c, e, node.start, fd.offset / 512)
    requires Starts(q, l, fd.offset, node.size, fd.offset / 512)
    modifies vol, fd`lastReadSectorIndex, fd`lastReadSectorNo
    ensures vol.Valid() && l.chain <= cc
    ensures Tried(q, old(vol.links), vol.links, vol.data, start, cc, c, l, node, node', fd.offset, old(fd.Now()),
              fd.Now(), ok) == true
  {
    var want := fd.offset / 512;
    var index, cur, prev := SeekForWrite(vol, fd, node, want, c, e);
    SeekLands(vol.links, fd.Now(), c, e, node.start, want, index, cur, prev);
    if cur == EOC && node.start != EOC && prev == EOC {
      FailOnStaleHint(vol, prev);
      return false, node, l.start, l.chain;
    }
    ghost var was, was0 := vol.links, fd.Now();
    ok, cur, node', start, cc := TakeSectors(vol, fd, node, want, index, cur, prev, l, q);
    if ok {
      ghost var links1, data1, cc1, cur1 := vol.links, vol.data, cc, cur;
      ok, cc := WriteFromStart(vol, cur, d, fd.offset, node.size, buffer, start, q, was, cc, q.o / 512);
      BodyTried(q, was, links1, data1, vol.links, vol.data, start, cc1, cur1, cc, c, l, node, node', fd.offset, was0,
        fd.Now(), ok);
    }
  }

  lemma BodyTried(q: Request, was: seq<nat>, links1: seq<nat>, data1: seq<Sector>, links: seq<nat>, data: seq<Sector>,
                  start: nat, cc1: seq<nat>, cur: nat, cc: seq<nat>, c: seq<nat>, l: Landing, node: Node, node': Node,
                  o: nat, was0: Mark, m: Mark, ok: bool)
    requires q.Ok() && |was| == |q.data| && !was0.Refused(c, o / 512) && q.c == l.chain
    requires o / 512 == l.base + q.o / 512 && Begun(q, was, links1, data1, start, cc1, cur)
    requires cc1 <= cc && BodyDone(q, was, links, data, start, cc, ok)
    requires node' == node.(start := if l.start == EOC then start else node.start)
    requires l.start != EOC ==> start == l.start
    requires Remembers(l, o / 512, |FreeSet(was)|, cc1, was0, m)
    ensures Tried(q, was, links, data, start, cc, c, l, node, node', o, was0, m, ok) == true
  {
    WriteOutcome(q, was, links, data, start, cc, ok);
  }

  /** Where the seek stops is where the write begins; it is refused at an end mark that has no predecessor. */
  lemma SeekLands(links: seq<nat>, m: Mark, c: seq<nat>, e: seq<nat>, start: nat, want: nat, index: nat, cur: nat,
                  prev: nat)
    requires IsChain(links, start, c) && |links| < EOC && m.WayKnown(links, c, e, want)
    requires var w := m.Way(c, e, start, want);
             AtIndex(w.base, w.chain, want, index, cur, prev) && (cur == EOC ==> (prev == EOC <==> w.chain == []))
    ensures m.Refused(c, want) <==> cur == EOC && start != EOC && prev == EOC
    ensures var l := m.Target(c, e, start, want);
            && IsWalk(links, l.start, l.chain) && AtIndex(l.base, l.chain, want, index, cur, prev)
            && (cur == EOC && !m.Refused(c, want) ==> (start == EOC <==> l.chain == []))
  {
  }

  /** The sector the write starts in: where the seek stopped, or allocated up to it. */
  method TakeSectors(vol: Volume, fd: FileDescriptor, node: Node, want: nat, index: nat, cur0: nat, prev: nat,
                     ghost l: Landing, ghost q: Request)
    returns (ok: bool, cur: nat, node': Node, ghost from: nat, ghost cc: seq<nat>)
    requires vol.Valid() && Starts(q, l, q.o, q.size, want) && IsWalk(vol.links, l.start, l.chain)
    requires vol.data == q.data && AtIndex(l.base, l.chain, want, index, cur0, prev)
    requires cur0 == EOC ==> (node.start == EOC <==> l.chain == [])
    modifies vol, fd`lastReadSectorIndex, fd`lastReadSectorNo
    ensures vol.Valid() && q.c <= cc && node' == node.(start := if l.start == EOC then from else node.start)
    ensures l.start != EOC ==> from == l.start
    ensures Remembers(l, want, |FreeSet(old(vol.links))|, cc, old(fd.Now()), fd.Now()) == true
    ensures ok ==> Begun(q, old(vol.links), vol.links, vol.data, from, cc, cur) == true
    ensures ok && |q.c| <= q.o / 512 ==> vol.data[cur] == ZERO_SECTOR
    ensures !ok ==> Ended(q, old(vol.links), vol.links, vol.data, from, cc, l, node, node', false) == true
  {
    ok, cur, node', from, cc := true, cur0, node, l.start, l.chain;
    ghost var was, was0 := vol.links, fd.Now();
    if cur0 == EOC {
      GrowsBehind(q);
      ExtendingFirst(q, was, vol.data, l, was0);
      var first;
      ok, first, cur, from, cc := ExtendToIndex(vol, fd, node.start, want, index, prev, l, q, was, was0);
      node' := node.(start := first);
      Taken(q, was, vol.links, vol.data, l, from, cc, was0, fd.Now(), want, node, node', ok);
    } else {
      fd.SetLastReadSector(index, cur);
      forall j | 0 <= j < q.o / 512 ensures q.Good(j, vol.data[cc[j]]) { q.UntouchedIsGood(j); }
    }
  }

  lemma Taken(q: Request, was: seq<nat>, links: seq<nat>, data: seq<Sector>, l: Landing, from: nat, cc: seq<nat>,
              was0: Mark, m: Mark, want: nat, node: Node, node': Node, ok: bool)
    requires Extending(q, was, links, data, l, from, cc, was0, m) && |was| == |q.data| && |links| < EOC
    requires want == l.base + q.o / 512 && |q.c| <= q.o / 512 && (node.start == EOC <==> q.c == [])
    requires if ok then |cc| == q.o / 512 + 1 else FreeSet(links) == {} && |cc| <= q.o / 512
    requires node' == node.(start := if node.start == EOC && cc != [] then from else node.start)
    ensures node' == node.(start := if l.start == EOC then from else node.start)
    ensures Remembers(l, want, |FreeSet(was)|, cc, was0, m) == true
    ensures ok ==> Begun(q, was, links, data, from, cc, cc[q.o / 512]) == true
    ensures !ok ==> Ended(q, was, links, data, from, cc, l, node, node', false) == true
  {
    if !ok { StoppedShort(q, was, links, data, from, cc); }
  }

  lemma StoppedShort(q: Request, was: seq<nat>, links: seq<nat>, data: seq<Sector>, start: nat, cc: seq<nat>)
    requires q.Ok() && |was| == |q.data| && Midway(q, was, links, data, start, cc, |cc|) && FreeSet(links) == {}
    requires |cc| <= q.o / 512
    ensures Interrupted(q, was, links, data, start, cc)
    ensures SectorsFor(q.o + |q.d|) > |q.c| + |FreeSet(was)|
  {
    ProgressIsHarmless(q, data, cc, |cc|);
  }

  lemma WriteOutcome(q: Request, was: seq<nat>, links: seq<nat>, data: seq<Sector>, start: nat, cc: seq<nat>, ok: bool)
    requires q.Ok() && |was| == |q.data| && BodyDone(q, was, links, data, start, cc, ok)
    ensures ok <==> SectorsFor(q.o + |q.d|) <= |q.c| + |FreeSet(was)|
    ensures ok ==> Written(q, was, links, data, start, cc)
    ensures !ok ==> Interrupted(q, was, links, data, start, cc)
  {
    if ok { FinishWrite(q, was, links, data, start, cc, SectorsFor(q.o + |q.d|)); }
  }

  /** Linking behind the end mark throws, after a free sector was taken. */
  method FailOnStaleHint(vol: Volume, prev: nat)
    requires vol.Valid() && prev == EOC
    modifies vol`links, vol`freePool
    ensures vol.Valid() && LeakedOne(old(vol.links), vol.links)
  {
    ghost var was := vol.links;
    var s := vol.AllocateSector();
    if s.Some? {
      assert s.value in FreeSet(was);
      var ok := vol.SetSectorEntryValue(prev, s.value);
    }
  }

  lemma FinishWrite(q: Request, was: seq<nat>, links: seq<nat>, data: seq<Sector>, start: nat, cc: seq<nat>, n: nat)
    requires q.Ok() && |was| == |q.data| && Midway(q, was, links, data, start, cc, n)
    requires n == SectorsFor(q.o + |q.d|) && |cc| == Max(|q.c|, n)
    ensures Written(q, was, links, data, start, cc)
  {
    forall j | 0 <= j < |cc| ensures q.Good(j, data[cc[j]]) {
      if j >= n { q.UntouchedIsGood(j); }
    }
  }

  // ---------------------------------------------------------------- what a write means

  lemma WrittenBytes(q: Request, links0: seq<nat>, links: seq<nat>, data: seq<Sector>, start: nat, cc: seq<nat>)
    requires q.Ok() && Written(q, links0, links, data, start, cc)
    ensures InRange(cc, |data|) && Max(q.size, q.o + |q.d|) <= 512 * |cc|
    ensures forall p :: 0 <= p < Max(q.size, q.o + |q.d|) ==> q.GoodByte(p, ByteAt(data, cc, p))
  {
    assert q.o + |q.d| <= 512 * SectorsFor(q.o + |q.d|);
    forall p | 0 <= p < Max(q.size, q.o + |q.d|) ensures q.GoodByte(p, ByteAt(data, cc, p)) {
      assert q.Good(p / 512, data[cc[p / 512]]);
      GoodAt(q, p / 512, data[cc[p / 512]], p);
    }
  }

  lemma GoodAt(q: Request, j: nat, s: Sector, p: nat)
    requires q.Ok() && q.Good(j, s) && p / 512 == j
    ensures q.GoodByte(p, s[p % 512])
  {
    var k := p % 512;
    assert p == 512 * j + k && q.GoodByte(512 * j + k, s[k]);
  }

  lemma SafeAt(q: Request, j: nat, s: Sector, p: nat)
    requires q.Ok() && q.Safe(j, s) && p / 512 == j
    ensures q.SafeByte(p, s[p % 512])
  {
    var k := p % 512;
    assert p == 512 * j + k && q.SafeByte(512 * j + k, s[k]);
  }

  lemma BytesReplaced(q: Request, now: seq<byte>)
    requires q.Ok() && |now| == Max(q.size, q.o + |q.d|) && forall p :: 0 <= p < |now| ==> q.GoodByte(p, now[p])
    ensures Replaced(Content(q.data, q.c, q.size), now, q.o, q.d)
    ensures forall p :: 512 * |q.c| <= p < q.o ==> now[p] == 0
  {
    forall p | 0 <= p < |now| ensures q.GoodByte(p, now[p]) {}
  }

  /** The bytes of the file after a finished write. */
  lemma WrittenContent(q: Request, links0: seq<nat>, links: seq<nat>, data: seq<Sector>, start: nat, cc: seq<nat>)
    requires q.Ok() && Written(q, links0, links, data, start, cc)
    ensures InRange(cc, |data|) && Max(q.size, q.o + |q.d|) <= 512 * |cc|
    ensures var now := Content(data, cc, Max(q.size, q.o + |q.d|));
            && Replaced(Content(q.data, q.c, q.size), now, q.o, q.d)
            && forall p :: 512 * |q.c| <= p < q.o ==> now[p] == 0
  {
    WrittenBytes(q, links0, links, data, start, cc);
    var now := Content(data, cc, Max(q.size, q.o + |q.d|));
    forall p | 0 <= p < |now| ensures q.GoodByte(p, now[p]) {
      assert q.GoodByte(p, ByteAt(data, cc, p));
    }
    BytesReplaced(q, now);
  }

  /** `now` is `was` with `d` at `o`; bytes of `was` outside the span stand, and a gap may hold anything. */
  ghost predicate Replaced(was: seq<byte>, now: seq<byte>, o: nat, d: seq<byte>) {
    && |now| == Max(|was|, o + |d|)
    && (forall p :: o <= p < o + |d| ==> now[p] == d[p - o])
    && (forall p :: 0 <= p < |was| && (p < o || o + |d| <= p) ==> now[p] == was[p])
  }

  lemma ReplacedIsOverwrite(was: seq<byte>, now: seq<byte>, o: nat, d: seq<byte>)
    requires Replaced(was, now, o, d)
    ensures now[o..o + |d|] == d
    ensures o <= |was| ==> now == Overwrite(was, o, d)
    ensures |was| < o ==> now[..|was|] == was
  {
    if o <= |was| {
      var w := Overwrite(was, o, d);
      assert forall p :: o + |d| <= p < |was| ==> w[p] == was[p];
    }
  }

  /** An interrupted write loses nothing outside its span. */
  lemma InterruptedContent(q: Request, links0: seq<nat>, links: seq<nat>, data: seq<Sector>, start: nat, cc: seq<nat>)
    requires q.Ok() && Interrupted(q, links0, links, data, start, cc)
    ensures InRange(cc, |data|) && q.size <= 512 * |cc|
    ensures forall p :: 0 <= p < q.size && (p < q.o || q.o + |q.d| <= p) ==>
              Content(data, cc, q.size)[p] == Content(q.data, q.c, q.size)[p]
  {
    forall p | 0 <= p < q.size && (p < q.o || q.o + |q.d| <= p)
      ensures ByteAt(data, cc, p) == ByteAt(q.data, q.c, p)
    {
      assert q.Safe(p / 512, data[cc[p / 512]]);
      SafeAt(q, p / 512, data[cc[p / 512]], p);
    }
  }

  /** A chain disjoint from the one written keeps its sectors, its links and its bytes. */
  lemma OtherFileKept(q: Request, links0: seq<nat>, links: seq<nat>, data: seq<Sector>, start: nat, cc: seq<nat>,
                      other: seq<nat>, otherStart: nat, size: nat)
    requires q.Ok() && |links0| < EOC && Extended(q, links0, links, data, start, cc)
    requires IsChain(links0, otherStart, other) && size <= 512 * |other|
    requires forall s :: s in other ==> s !in q.c
    ensures forall s :: s in other ==> s !in cc
    ensures IsChain(links, otherStart, other)
    ensures Content(data, other, size) == Content(q.data, other, size)
  {
    ChainInUse(links0, otherStart, other);
    forall i | 0 <= i < |cc| ensures cc[i] in q.c || links0[cc[i]] == 0 {
      if i < |q.c| { assert cc[i] == q.c[i]; }
    }
    assert forall s :: s in other ==> links0[s] != 0;
  }

  /** Sectors in use outside `c` keep their link and their bytes. */
  ghost predicate OthersKept(links0: seq<nat>, data0: seq<Sector>, links: seq<nat>, data: seq<Sector>, c: seq<nat>) {
    && |links| == |links0| == |data| == |data0|
    && forall s :: 0 <= s < |links| && links0[s] != 0 && s !in c ==> links[s] == links0[s] && data[s] == data0[s]
  }

  lemma ExtendedKeepsOthers(q: Request, links0: seq<nat>, links: seq<nat>, data: seq<Sector>, start: nat, cc: seq<nat>)
    requires Extended(q, links0, links, data, start, cc)
    ensures OthersKept(links0, q.data, links, data, q.c)
    ensures forall s :: s in cc ==> s in q.c || links0[s] == 0
  {
    forall i | 0 <= i < |cc| ensures cc[i] in q.c || links0[cc[i]] == 0 {
      if i < |q.c| { assert cc[i] == q.c[i]; }
    }
  }

  lemma ExtendedPositive(c: seq<nat>, cc: seq<nat>)
    requires AllPositive(c) && c <= cc && forall i :: |c| <= i < |cc| ==> 0 < cc[i]
    ensures AllPositive(cc)
  {
  }

  /** The bytes outside the `n` from `o` on are as they were. */
  ghost predicate Survived(was: seq<byte>, now: seq<byte>, o: nat, n: nat) {
    |now| == |was| && forall p :: 0 <= p < |was| && (p < o || o + n <= p) ==> now[p] == was[p]
  }

  /**
   What a write of `d` at `o` leaves of a file with chain `c` and slot `node0`.  The slot is rewritten only when the
   file grew; when the volume fills up part way it is not, so a first write that fails leaves the file empty.
   */
  ghost predicate Outcome(links0: seq<nat>, data0: seq<Sector>, c: seq<nat>, node0: Node,
                          links: seq<nat>, data: seq<Sector>, cc: seq<nat>, node: Node, o: nat, d: seq<byte>, ok: bool)
    requires InRange(c, |data0|) && node0.size <= 512 * |c|
  {
    && OthersKept(links0, data0, links, data, c)
    && IsChain(links, node.start, cc) && c <= cc && (forall s :: s in cc ==> s in c || (s < |links0| && links0[s] == 0))
    && node.isDirectory == node0.isDirectory && InRange(cc, |data|) && node.size <= 512 * |cc|
    && var was, now := Content(data0, c, node0.size), Content(data, cc, node.size);
       if ok then node.size == Max(node0.size, o + |d|) && Replaced(was, now, o, d)
       else node == node0 && Survived(was, now, o, |d|)
  }

  lemma WholeOutcome(q: Request, links0: seq<nat>, links: seq<nat>, data: seq<Sector>, cc: seq<nat>, node0: Node,
                     node: Node)
    requires q.Ok() && q.size == node0.size && Written(q, links0, links, data, node.start, cc)
    requires IsChain(links0, node0.start, q.c) && node == node0.(start := node.start, size := Max(q.size, q.o + |q.d|))
    ensures Outcome(links0, q.data, q.c, node0, links, data, cc, node, q.o, q.d, true)
  {
    WrittenContent(q, links0, links, data, node.start, cc);
    ExtendedKeepsOthers(q, links0, links, data, node.start, cc);
    ExtendedPositive(q.c, cc);
  }

  lemma PartOutcome(q: Request, links0: seq<nat>, links: seq<nat>, data: seq<Sector>, start: nat, cc: seq<nat>,
                    node0: Node)
    requires q.Ok() && q.size == node0.size && IsChain(links0, node0.start, q.c) && |links0| < EOC
    requires Interrupted(q, links0, links, data, start, cc) && (q.c != [] ==> start == node0.start)
    ensures Outcome(links0, q.data, q.c, node0, links, data, if q.c == [] then [] else cc, node0, q.o, q.d, false)
  {
    InterruptedContent(q, links0, links, data, start, cc);
    ExtendedKeepsOthers(q, links0, links, data, start, cc);
    ExtendedPositive(q.c, cc);
    SurvivedWhole(q, data, cc);
  }

  lemma SurvivedWhole(q: Request, data: seq<Sector>, cc: seq<nat>)
    requires q.Ok() && InRange(cc, |data|) && q.c <= cc
    requires forall p :: 0 <= p < q.size && (p < q.o || q.o + |q.d| <= p) ==>
               Content(data, cc, q.size)[p] == Content(q.data, q.c, q.size)[p]
    ensures Survived(Content(q.data, q.c, q.size), Content(data, cc, q.size), q.o, |q.d|) == true
    ensures q.c == [] ==> Survived(Content(q.data, [], q.size), Content(data, [], q.size), q.o, |q.d|) == true
  {
  }

  /**
   What a write makes of the number of the file's sectors and of the free ones: it takes what it needs, or when that is
   not to be had all there is, which a file without a first sector does not keep.
   */
  ghost predicate Ledger(links0: seq<nat>, c: seq<nat>, links: seq<nat>, cc: seq<nat>, need: nat, tried: bool, ok: bool)
  {
    if !tried then links == links0 && cc == c && !ok
    else if ok then |cc| == Max(|c|, need) && |FreeSet(links)| + |cc| == |FreeSet(links0)| + |c|
    else |FreeSet(links)| == 0 && |cc| == if c == [] then 0 else |c| + |FreeSet(links0)|
  }

  /**
   What a write leaves wherever it went: along its walk the data at its place and free sectors behind it, the slot
   rewritten if the file grew, and all other sectors in use as they were.
   */
  ghost predicate WentTo(links0: seq<nat>, data0: seq<Sector>, node0: Node, l: Landing, links: seq<nat>,
                         data: seq<Sector>, node: Node, start: nat, cc: seq<nat>, o: nat, d: seq<byte>, ok: bool)
  {
    && OthersKept(links0, data0, links, data, l.chain)
    && IsWalk(links, start, cc) && l.chain <= cc && (l.start != EOC ==> start == l.start) && 512 * l.base <= o
    && (forall i :: |l.chain| <= i < |cc| ==> 0 < cc[i] && links0[cc[i]] == 0)
    && |FreeSet(links)| + |cc| == |FreeSet(links0)| + |l.chain|
    && if ok then
         var need := SectorsFor(o - 512 * l.base + |d|);
         && need <= |cc| == Max(|l.chain|, need)
         && node == (if o + |d| <= node0.size then node0
                     else Node(node0.isDirectory, if l.start == EOC then start else node0.start, o + |d|))
         && Holds(data, cc, o - 512 * l.base, d)
       else
         node == node0 && FreeSet(links) == {}
  }

  /** The bytes of the walk from `at` on are those of `d`. */
  ghost predicate Holds(data: seq<Sector>, c: seq<nat>, at: nat, d: seq<byte>) {
    && InRange(c, |data|) && at + |d| <= 512 * |c|
    && forall k :: 0 <= k < |d| ==> d[k] == ByteAt(data, c, at + k)
  }

  lemma WrittenHolds(q: Request, links0: seq<nat>, links: seq<nat>, data: seq<Sector>, start: nat, cc: seq<nat>)
    requires q.Ok() && Written(q, links0, links, data, start, cc)
    ensures Holds(data, cc, q.o, q.d)
  {
    WrittenBytes(q, links0, links, data, start, cc);
    forall k | 0 <= k < |q.d| ensures q.d[k] == ByteAt(data, cc, q.o + k) {
      assert q.GoodByte(q.o + k, ByteAt(data, cc, q.o + k));
    }
  }

  lemma WholeWentTo(q: Request, links0: seq<nat>, links: seq<nat>, data: seq<Sector>, start: nat, cc: seq<nat>,
                    node0: Node, l: Landing, node: Node, o: nat)
    requires q.Ok() && 512 * l.base <= o && q == Landed(q.data, l, node0.size, o, q.d)
    requires Written(q, links0, links, data, start, cc) && (l.start != EOC ==> start == l.start)
    requires node == if o + |q.d| <= node0.size then node0
                     else Node(node0.isDirectory, if l.start == EOC then start else node0.start, o + |q.d|)
    ensures WentTo(links0, q.data, node0, l, links, data, node, start, cc, o, q.d, true)
  {
    WrittenBytes(q, links0, links, data, start, cc);
    ExtendedKeepsOthers(q, links0, links, data, start, cc);
    WrittenHolds(q, links0, links, data, start, cc);
  }

  lemma PartWentTo(q: Request, links0: seq<nat>, links: seq<nat>, data: seq<Sector>, start: nat, cc: seq<nat>,
                   node0: Node, l: Landing, o: nat)
    requires q.Ok() && 512 * l.base <= o && q == Landed(q.data, l, node0.size, o, q.d)
    requires Interrupted(q, links0, links, data, start, cc) && (l.start != EOC ==> start == l.start)
    ensures WentTo(links0, q.data, node0, l, links, data, node0, start, cc, o, q.d, false)
  {
    ExtendedKeepsOthers(q, links0, links, data, start, cc);
  }

  /** The file's own chain after a write along it: what a first write took and could not finish is not its own. */
  function Kept(c: seq<nat>, cc: seq<nat>, ok: bool): seq<nat> {
    if c == [] && !ok then [] else cc
  }

  /** A volume, a file's slot on it, and the position its descriptor remembers. */
  datatype Scene = Scene(links: seq<nat>, data: seq<Sector>, node: Node, mark: Mark)

  /**
   What a write does.  Along the file's own chain it replaces the span, or fails without loss; through any other
   remembered sector it goes where that leads; through an end mark it fails, and a sector is lost.
   */
  ghost predicate WriteDone(s: Scene, t: Scene, c: seq<nat>, l: Landing, o: nat, d: seq<byte>, ok: bool, start: nat,
                            cc: seq<nat>)
    requires InRange(c, |s.data|)
  {
    var want, free := o / 512, |FreeSet(s.links)|;
    && (ok <==> d != [] && !s.node.isDirectory && !s.mark.Refused(c, want)
                && SectorsFor(o + |d|) <= l.base + |l.chain| + free)
    && (s.mark.Own(c, want) && s.node.size <= 512 * |c| ==>
          Outcome(s.links, s.data, c, s.node, t.links, t.data, Kept(c, cc, ok), t.node, o, d, ok))
    && (s.mark.Own(c, want) ==>
          Ledger(s.links, c, t.links, Kept(c, cc, ok), SectorsFor(o + |d|), d != [] && !s.node.isDirectory, ok))
    && if d == [] || s.node.isDirectory then t == s
       else if s.mark.Refused(c, want) then t == s.(links := t.links) && LeakedOne(s.links, t.links)
       else
         && WentTo(s.links, s.data, s.node, l, t.links, t.data, t.node, start, cc, o, d, ok)
         && Remembers(l, want, free, cc, s.mark, t.mark)
  }

  /** A walk that a write of `n` bytes at `o` has to extend is one over sectors in use. */
  ghost predicate MayExtend(l: Landing, o: nat, n: nat) {
    AllPositive(l.chain) || SectorsFor(o + n) <= l.base + |l.chain|
  }

  /** One write through a descriptor. */
  method FileWrite(vol: Volume, fd: FileDescriptor, entry: DirEntry, d: seq<byte>, buffer: Sector, ghost c: seq<nat>,
                   ghost e: seq<nat>, ghost l: Landing)
    returns (ok: bool, ghost start: nat, ghost cc: seq<nat>)
    requires vol.Valid() && IsChain(vol.links, entry.node.start, c)
    requires d != [] && !entry.node.isDirectory ==>
               fd.Now().WayKnown(vol.links, c, e, fd.offset / 512) && MayExtend(l, fd.offset, |d|)
    requires l == fd.Now().Target(c, e, entry.node.start, fd.offset / 512)
    modifies vol, fd`lastReadSectorIndex, fd`lastReadSectorNo, entry
    ensures vol.Valid()
    ensures WriteDone(Scene(old(vol.links), old(vol.data), old(entry.node), old(fd.Now())),
              Scene(vol.links, vol.data, entry.node, fd.Now()), c, l, fd.offset, d, ok, start, cc) == true
  {
    ok, start, cc := false, entry.node.start, c;
    ghost var s := Scene(vol.links, vol.data, entry.node, fd.Now());
    if d == [] || entry.node.isDirectory {
      NotTried(s, c, l, fd.offset, d, start, cc);
      return;
    }
    ghost var q := Landed(vol.data, l, entry.node.size, fd.offset, d);
    WriteStarts(s, c, e, l, fd.offset, d);
    var node;
    ok, node, start, cc := ActualFileWrite(vol, fd, entry.node, d, buffer, c, e, l, q);
    if ok && node.size < fd.offset + |d| { entry.node := node.(size := fd.offset + |d|); }
    WriteEnds(s, Scene(vol.links, vol.data, entry.node, fd.Now()), c, e, l, fd.offset, q, node, ok, start, cc);
  }

  lemma NotTried(s: Scene, c: seq<nat>, l: Landing, o: nat, d: seq<byte>, start: nat, cc: seq<nat>)
    requires (d == [] || s.node.isDirectory) && IsChain(s.links, s.node.start, c) && |s.links| == |s.data| && cc == c
    ensures WriteDone(s, s, c, l, o, d, false, start, cc) == true
  {
  }

  lemma WriteStarts(s: Scene, c: seq<nat>, e: seq<nat>, l: Landing, o: nat, d: seq<byte>)
    requires IsChain(s.links, s.node.start, c) && |s.links| == |s.data| && d != [] && MayExtend(l, o, |d|)
    requires s.mark.WayKnown(s.links, c, e, o / 512) && l == s.mark.Target(c, e, s.node.start, o / 512)
    ensures 512 * l.base <= o && Starts(Landed(s.data, l, s.node.size, o, d), l, o, s.node.size, o / 512) == true
  {
    TargetIsWalk(s.links, s.mark, c, e, s.node.start, o, l);
    LandedStarts(s.links, s.data, l, s.node.size, o, d);
  }

  lemma WriteEnds(s: Scene, t: Scene, c: seq<nat>, e: seq<nat>, l: Landing, o: nat, q: Request, node: Node, ok: bool,
                  start: nat, cc: seq<nat>)
    requires IsChain(s.links, s.node.start, c) && |s.links| == |s.data| < EOC && !s.node.isDirectory && q.d != []
    requires l == s.mark.Target(c, e, s.node.start, o / 512) && 512 * l.base <= o
    requires q == Landed(s.data, l, s.node.size, o, q.d)
    requires t.node == if ok && node.size < o + |q.d| then node.(size := o + |q.d|) else s.node
    requires Tried(q, s.links, t.links, t.data, start, cc, c, l, s.node, node, o, s.mark, t.mark, ok)
    ensures WriteDone(s, t, c, l, o, q.d, ok, start, cc) == true
  {
    if !s.mark.Refused(c, o / 512) {
      NeedsSame(q, s.data, l, s.node.size, o, |FreeSet(s.links)|);
      WriteEnded(q, s.links, t.links, t.data, start, cc, s.node, l, node, t.node, o, ok);
      if s.mark.Own(c, o / 512) {
        OwnEnded(q, s.links, t.links, t.data, start, cc, s.node, c, node, t.node, o, ok);
        OwnDone(s, t, c, l, o, q.d, ok, start, cc);
      } else {
        ElseDone(s, t, c, l, o, q.d, ok, start, cc);
      }
    }
  }

  lemma OwnDone(s: Scene, t: Scene, c: seq<nat>, l: Landing, o: nat, d: seq<byte>, ok: bool, start: nat, cc: seq<nat>)
    requires InRange(c, |s.data|) && s.mark.Own(c, o / 512) && d != [] && !s.node.isDirectory
    requires ok <==> SectorsFor(o + |d|) <= l.base + |l.chain| + |FreeSet(s.links)|
    requires s.node.size <= 512 * |c| ==>
               Outcome(s.links, s.data, c, s.node, t.links, t.data, Kept(c, cc, ok), t.node, o, d, ok) == true
    requires Ledger(s.links, c, t.links, Kept(c, cc, ok), SectorsFor(o + |d|), true, ok) == true
    requires WentTo(s.links, s.data, s.node, l, t.links, t.data, t.node, start, cc, o, d, ok) == true
    requires Remembers(l, o / 512, |FreeSet(s.links)|, cc, s.mark, t.mark) == true
    ensures WriteDone(s, t, c, l, o, d, ok, start, cc) == true
  {
  }

  lemma ElseDone(s: Scene, t: Scene, c: seq<nat>, l: Landing, o: nat, d: seq<byte>, ok: bool, start: nat, cc: seq<nat>)
    requires InRange(c, |s.data|) && !s.mark.Own(c, o / 512) && !s.mark.Refused(c, o / 512)
    requires d != [] && !s.node.isDirectory && (ok <==> SectorsFor(o + |d|) <= l.base + |l.chain| + |FreeSet(s.links)|)
    requires WentTo(s.links, s.data, s.node, l, t.links, t.data, t.node, start, cc, o, d, ok) == true
    requires Remembers(l, o / 512, |FreeSet(s.links)|, cc, s.mark, t.mark) == true
    ensures WriteDone(s, t, c, l, o, d, ok, start, cc) == true
  {
  }

  lemma NeedsSame(q: Request, data: seq<Sector>, l: Landing, size: nat, o: nat, free: nat)
    requires 512 * l.base <= o && q == Landed(data, l, size, o, q.d)
    ensures SectorsFor(q.o + |q.d|) <= |q.c| + free <==> SectorsFor(o + |q.d|) <= l.base + |l.chain| + free
  {
    NeedShifts(l, o, |q.d|, q.o);
  }

  lemma NeedShifts(l: Landing, o: nat, n: nat, at: nat)
    requires o == 512 * l.base + at
    ensures SectorsFor(o + n) == l.base + SectorsFor(at + n)
  {
  }

  lemma WriteEnded(q: Request, links0: seq<nat>, links: seq<nat>, data: seq<Sector>, start: nat, cc: seq<nat>,
                   node0: Node, l: Landing, node1: Node, node: Node, o: nat, ok: bool)
    requires 512 * l.base <= o && q == Landed(q.data, l, node0.size, o, q.d)
    requires Ended(q, links0, links, data, start, cc, l, node0, node1, ok)
    requires node == if ok && node1.size < o + |q.d| then node1.(size := o + |q.d|) else node0
    ensures WentTo(links0, q.data, node0, l, links, data, node, start, cc, o, q.d, ok) == true
  {
    if ok {
      WholeWentTo(q, links0, links, data, start, cc, node0, l, node, o);
    } else {
      PartWentTo(q, links0, links, data, start, cc, node0, l, o);
    }
  }

  lemma OwnEnded(q: Request, links0: seq<nat>, links: seq<nat>, data: seq<Sector>, start: nat, cc: seq<nat>,
                 node0: Node, c: seq<nat>, node1: Node, node: Node, o: nat, ok: bool)
    requires q.Ok() && q == Landed(q.data, Landing(0, c, node0.start), node0.size, o, q.d) && |links0| < EOC
    requires IsChain(links0, node0.start, c)
    requires Ended(q, links0, links, data, start, cc, Landing(0, c, node0.start), node0, node1, ok) == true
    requires node == if ok && node1.size < o + |q.d| then node1.(size := o + |q.d|) else node0
    ensures node0.size <= 512 * |c| ==>
              Outcome(links0, q.data, c, node0, links, data, Kept(c, cc, ok), node, o, q.d, ok) == true
    ensures Ledger(links0, c, links, Kept(c, cc, ok), SectorsFor(o + |q.d|), true, ok) == true
  {
    assert q.o == o;
    if node0.size <= 512 * |c| {
      if ok {
        WholeOutcome(q, links0, links, data, cc, node0, node);
      } else {
        PartOutcome(q, links0, links, data, start, cc, node0);
      }
    }
  }

  // ---------------------------------------------------------------- reading

  function Flat(ss: seq<Sector>): seq<byte> {
    seq(512 * |ss|, i requires 0 <= i < 512 * |ss| => ss[i / 512][i % 512])
  }

  /** From index `i` on, `count` sectors of the chain have consecutive ids. */
  ghost predicate Adjacent(c: seq<nat>, i: nat, count: nat, sector: nat) {
    i + count <= |c| && forall j :: i <= j < i + count ==> c[j] == sector + (j - i)
  }

  /** Sectors of the chain with consecutive ids read in one go are the bytes of that stretch of the file. */
  lemma RunBytes(data: seq<Sector>, c: seq<nat>, size: nat, i: nat, sector: nat, count: nat, pos: nat, n: nat)
    requires InRange(c, |data|) && size <= 512 * |c| && i + count <= |c| && sector + count <= |data|
    requires Adjacent(c, i, count, sector)
    requires pos + n <= 512 * count && 512 * i + pos + n <= size
    ensures Flat(data[sector..sector + count])[pos..pos + n] == Content(data, c, size)[512 * i + pos..512 * i + pos + n]
  {
    var ss := data[sector..sector + count];
    var flat, all := Flat(ss), Content(data, c, size);
    var got, want := flat[pos..pos + n], all[512 * i + pos..512 * i + pos + n];
    forall k | 0 <= k < n ensures got[k] == want[k] {
      var t := (pos + k) / 512;
      assert c[i + t] == sector + t;
      assert (512 * i + pos + k) / 512 == i + t && (512 * i + pos + k) % 512 == (pos + k) % 512;
      assert flat[pos + k] == ss[t][(pos + k) % 512] == ByteAt(data, c, 512 * i + pos + k);
    }
  }

  /** The sector of index `i` of a walk, the end mark behind its end. */
  function At(c: seq<nat>, i: nat): nat {
    if i < |c| then c[i] else EOC
  }

  /**
   The inner loop of the read: from `cur`, the sector of index `i`, the run of adjacent sectors to read at once,
   at most eight, how many bytes of it are wanted, and the sector after it.
   */
  method ReadRun(vol: Volume, cur0: nat, pos: nat, remaining: nat, ghost c: seq<nat>, ghost i: nat)
    returns (count: nat, n: nat, next: nat)
    requires vol.Valid() && i < |c| && IsWalk(vol.links, c[0], c) && cur0 == c[i]
    requires 0 < remaining && pos < 512
    ensures 1 <= count <= MAX_SECTORS_PER_RW && Adjacent(c, i, count, cur0)
    ensures 0 < n <= remaining && pos + n <= 512 * count
    ensures n < remaining ==> pos + n == 512 * count && next == At(c, i + count)
    ensures n < remaining && count < MAX_SECTORS_PER_RW ==> next != cur0 + count
    ensures 512 * (count - 1) < pos + n
  {
    var cur := cur0;
    count := 1;
    while true
      invariant 1 <= count < MAX_SECTORS_PER_RW && Adjacent(c, i, count, cur0) && cur == c[i + count - 1]
      invariant count > 1 ==> 512 * count - pos < remaining
      decreases MAX_SECTORS_PER_RW - count
    {
      var entry := vol.GetSectorEntryValue(cur);
      next := entry.value;
      assert next == At(c, i + count);
      if cur + 1 == next {
        cur := next;
        count := count + 1;
        n := 512 * count - pos;
        if remaining <= n {
          if pos + remaining <= 512 { count := count - 1; }
          n := remaining;
          break;
        }
        if count == MAX_SECTORS_PER_RW {
          entry := vol.GetSectorEntryValue(cur);
          next := entry.value;
          assert next == At(c, i + count);
          cur := next;
          break;
        }
      } else {
        n := 512 * count - pos;
        if remaining <= n { n := remaining; }
        cur := next;
        break;
      }
    }
  }

  /** The bytes of a whole walk. */
  ghost function WalkBytes(data: seq<Sector>, c: seq<nat>): (r: seq<byte>)
    requires InRange(c, |data|)
    ensures |r| == 512 * |c|
  {
    Content(data, c, 512 * |c|)
  }

  /** One run read and the wanted part of it copied out. */
  method ReadBatch(vol: Volume, cur: nat, pos: nat, remaining: nat, ghost c: seq<nat>, ghost i: nat)
    returns (bytes: seq<byte>, count: nat, next: nat)
    requires vol.Valid() && i < |c| && IsWalk(vol.links, c[0], c) && cur == c[i]
    requires 0 < remaining && pos < 512
    ensures 0 < |bytes| <= remaining && 512 * i + pos + |bytes| <= 512 * |c|
    ensures bytes == WalkBytes(vol.data, c)[512 * i + pos..512 * i + pos + |bytes|]
    ensures |bytes| < remaining ==> pos + |bytes| == 512 * count && i + count <= |c| && next == At(c, i + count)
  {
    var n;
    count, n, next := ReadRun(vol, cur, pos, remaining, c, i);
    assert c[i + count - 1] == cur + count - 1;
    var ss := vol.XRead(cur, count);
    RunBytes(vol.data, c, 512 * |c|, i, cur, count, pos, n);
    bytes := Flat(ss)[pos..pos + n];
  }

  /** The sector of index `want`, the end mark behind the last, or none when the seek goes on behind that. */
  method SeekForRead(vol: Volume, fd: FileDescriptor, node: Node, want: nat, ghost c: seq<nat>, ghost e: seq<nat>)
    returns (cur: Option<nat>)
    requires vol.Valid() && IsChain(vol.links, node.start, c) && fd.Now().WayKnown(vol.links, c, e, want)
    ensures var l := fd.Now().Way(c, e, node.start, want);
            l.base <= want && cur == if want - l.base <= |l.chain| then Some(At(l.chain, want - l.base)) else None
  {
    var index := fd.lastReadSectorIndex;
    var sector := fd.lastReadSectorNo;
    if index < 0 || index > want {
      index, sector := 0, node.start;
    }
    ghost var l := fd.Now().Way(c, e, node.start, want);
    ghost var base, w := l.base, l.chain;
    assert IsWalk(vol.links, At(w, 0), w);
    while index != want
      invariant base <= index <= want && index - base <= |w| && sector == At(w, index - base)
      decreases want - index
    {
      var next := vol.GetSectorEntryValue(sector);
      if next.None? { return None; }
      assert index - base < |w| - 1 ==> vol.links[w[index - base]] == w[index - base + 1];
      index := index + 1;
      sector := next.value;
    }
    return Some(sector);
  }

  lemma JoinSlices(s: seq<byte>, a: nat, b: nat, c: nat)
    requires a <= b <= c <= |s|
    ensures s[a..b] + s[b..c] == s[a..c]
  {
  }

  /** The `n` bytes of a walk from `at` on, or as many as it has. */
  ghost function Part(data: seq<Sector>, c: seq<nat>, at: nat, n: nat): seq<byte>
    requires InRange(c, |data|)
  {
    var all := WalkBytes(data, c);
    if |all| <= at then [] else if n < |all| - at then all[at..at + n] else all[at..]
  }

  /** The outer loop of the read, from the sector of index `i` of the walk to its end, or until all is read. */
  method ReadBatches(vol: Volume, fd: FileDescriptor, cur0: nat, want: nat, pos0: nat, remaining0: nat,
                     ghost c: seq<nat>, ghost base: nat, ghost i: nat, ghost o: nat)
    returns (out: seq<byte>)
    requires o == 512 * i + pos0 && want == base + i
    requires vol.Valid() && i <= |c| && IsWalk(vol.links, At(c, 0), c) && cur0 == At(c, i)
    requires 0 < remaining0 && pos0 < 512
    modifies fd`lastReadSectorIndex, fd`lastReadSectorNo
    ensures i == |c| ==> fd.Now() == Mark(want, EOC)
    ensures i < |c| ==> exists j :: i <= j < |c| && fd.Now() == Mark(base + j, c[j])
    ensures out == Part(vol.data, c, o, remaining0)
  {
    out := [];
    var lastIndex: nat, lastSector: nat := want, cur0;
    var cur, pos, remaining := cur0, pos0, remaining0;
    var count: nat := 0;
    ghost var last: nat, at: nat := i, i;
    while true
      invariant i <= last && base + last == lastIndex && at == last + count && at <= |c| && cur == At(c, at)
      invariant count > 0 ==> last < |c| && lastSector == c[last]
      invariant count == 0 ==> last == i && lastSector == cur0 && out == []
      invariant ReadSoFar(vol.data, c, o, remaining0, out, remaining) == true
      invariant 0 < remaining && pos < 512 && 512 * at + pos == o + |out|
      decreases remaining
    {
      if cur == EOC {
        fd.SetLastReadSector(lastIndex, lastSector);
        ReadAll(vol.data, c, o, remaining0, out, remaining);
        return;
      }
      lastIndex, lastSector := lastIndex + count, cur;
      last := at;
      var bytes, next;
      bytes, count, next := ReadBatch(vol, cur, pos, remaining, c, last);
      at := at + count;
      ReadOn(vol.data, c, o, remaining0, out, remaining, bytes);
      out := out + bytes;
      remaining := remaining - |bytes|;
      pos := 0;
      if remaining <= 0 {
        fd.SetLastReadSector(lastIndex, lastSector);
        ReadAll(vol.data, c, o, remaining0, out, remaining);
        return;
      }
      cur := next;
    }
  }

  ghost predicate ReadSoFar(data: seq<Sector>, c: seq<nat>, o: nat, wanted: nat, out: seq<byte>, left: nat) {
    && InRange(c, |data|) && |out| + left == wanted
    && (out == [] || (o + |out| <= 512 * |c| && out == WalkBytes(data, c)[o..o + |out|]))
  }

  lemma ReadAll(data: seq<Sector>, c: seq<nat>, o: nat, wanted: nat, out: seq<byte>, left: nat)
    requires ReadSoFar(data, c, o, wanted, out, left) && (left == 0 || 512 * |c| <= o + |out|)
    requires out == [] ==> 512 * |c| <= o
    ensures out == Part(data, c, o, wanted)
  {
  }

  lemma ReadOn(data: seq<Sector>, c: seq<nat>, o: nat, wanted: nat, out: seq<byte>, left: nat, bytes: seq<byte>)
    requires ReadSoFar(data, c, o, wanted, out, left) && |bytes| <= left && o + |out| + |bytes| <= 512 * |c|
    requires bytes == WalkBytes(data, c)[o + |out|..o + |out| + |bytes|]
    ensures ReadSoFar(data, c, o, wanted, out + bytes, left - |bytes|)
  {
    JoinSlices(WalkBytes(data, c), o, o + |out|, o + |out| + |bytes|);
  }

  /** The bytes of a file are the first of its chain. */
  lemma ContentIsPrefix(data: seq<Sector>, c: seq<nat>, size: nat, o: nat, n: nat)
    requires InRange(c, |data|) && o + n <= size <= 512 * |c|
    ensures WalkBytes(data, c)[o..o + n] == Content(data, c, size)[o..o + n]
  {
  }

  /**
   What a read does: along the file's own chain it answers the bytes of the file; through any other remembered sector
   those of the walk from there, as far as it goes, and the seek throws behind the end of that.
   */
  ghost predicate ReadDone(data: seq<Sector>, node: Node, was: Mark, m: Mark, c: seq<nat>, l: Landing, o: nat, n: nat,
                           ok: bool, out: seq<byte>)
    requires InRange(c, |data|)
  {
    && (node.isDirectory || o >= node.size ==> ok == !node.isDirectory && out == [] && m == was)
    && (!node.isDirectory && o < node.size ==>
          var i := o / 512 - l.base;
          && i >= 0 && InRange(l.chain, |data|) && (ok <==> i <= |l.chain|)
          && out == Part(data, l.chain, o - 512 * l.base, if 0 < n <= node.size - o then n else node.size - o)
          && if !ok then m == was
             else if i == |l.chain| then m == Mark(o / 512, EOC)
             else exists j :: i <= j < |l.chain| && m == Mark(l.base + j, l.chain[j]))
    && (!node.isDirectory && was.Own(c, o / 512) && node.size <= 512 * |c| ==>
          && ok && (was.Ok(c) || o < node.size ==> m.Ok(c))
          && var file := Content(data, c, node.size);
             out == if |file| <= o then [] else if 0 < n <= |file| - o then file[o..o + n] else file[o..])
  }

  /** Reads `n` bytes at the descriptor's offset, all that is left when `n` is zero. */
  method FileRead(vol: Volume, fd: FileDescriptor, node: Node, n: nat, ghost c: seq<nat>, ghost e: seq<nat>,
                  ghost l: Landing)
    returns (ok: bool, out: seq<byte>)
    requires vol.Valid() && IsChain(vol.links, node.start, c)
    requires !node.isDirectory && fd.offset < node.size ==> fd.Now().WayKnown(vol.links, c, e, fd.offset / 512)
    requires l == fd.Now().Way(c, e, node.start, fd.offset / 512)
    modifies fd`lastReadSectorIndex, fd`lastReadSectorNo
    ensures ReadDone(vol.data, node, old(fd.Now()), fd.Now(), c, l, fd.offset, n, ok, out) == true
    ensures !node.isDirectory && old(fd.Now()).Own(c, fd.offset / 512) && node.size <= 512 * |c| ==>
              var o, file := fd.offset, Content(vol.data, c, node.size);
              out == if |file| <= o then [] else if 0 < n <= |file| - o then file[o..o + n] else file[o..]
  {
    ghost var was := fd.Now();
    ok, out := !node.isDirectory, [];
    if !ok || fd.offset >= node.size { return; }
    assert IsWalk(vol.links, l.start, l.chain) && 512 * l.base <= fd.offset;
    var want, pos := fd.offset / 512, fd.offset % 512;
    var cur := SeekForRead(vol, fd, node, want, c, e);
    if cur.None? {
      NothingRead(vol.data, node, was, c, l, fd.offset, n);
      return false, [];
    }
    fd.SetLastReadSector(want, cur.value);
    var remaining := if 0 < n < node.size - fd.offset then n else node.size - fd.offset;
    ghost var i, o := want - l.base, fd.offset - 512 * l.base;
    out := ReadBatches(vol, fd, cur.value, want, pos, remaining, l.chain, l.base, i, o);
    ReadEnds(vol.data, node, was, fd.Now(), c, l, fd.offset, n, i, o, remaining, out);
  }

  lemma NothingRead(data: seq<Sector>, node: Node, was: Mark, c: seq<nat>, l: Landing, o: nat, n: nat)
    requires InRange(c, |data|) && InRange(l.chain, |data|) && !node.isDirectory && o < node.size
    requires |l.chain| < o / 512 - l.base && (was.Own(c, o / 512) ==> l.base == 0 && l.chain == c)
    ensures ReadDone(data, node, was, was, c, l, o, n, false, []) == true
  {
  }

  lemma ReadEnds(data: seq<Sector>, node: Node, was: Mark, m: Mark, c: seq<nat>, l: Landing, o: nat, n: nat, i: nat,
                 at: nat, length: nat, out: seq<byte>)
    requires InRange(c, |data|) && InRange(l.chain, |data|) && !node.isDirectory && o < node.size
    requires (was.Own(c, o / 512) ==> l.base == 0 && l.chain == c) && l.base + i == o / 512 && i <= |l.chain|
    requires at == o - 512 * l.base && out == Part(data, l.chain, at, length)
    requires length == if 0 < n < node.size - o then n else node.size - o
    requires if i == |l.chain| then m == Mark(o / 512, EOC)
             else exists j :: i <= j < |l.chain| && m == Mark(l.base + j, l.chain[j])
    ensures ReadDone(data, node, was, m, c, l, o, n, true, out) == true
  {
    if was.Own(c, o / 512) && node.size <= 512 * |c| {
      ContentIsPrefix(data, c, node.size, o, length);
    }
  }

  /** Bytes written at an offset along the file's chain are the bytes a read at that offset returns. */
  method WriteThenRead(vol: Volume, fd: FileDescriptor, entry: DirEntry, d: seq<byte>, buffer: Sector,
                       ghost c: seq<nat>)
    returns (wrote: bool, out: seq<byte>)
    requires vol.Valid() && IsChain(vol.links, entry.node.start, c) && entry.node.size <= 512 * |c|
    requires fd.Now().Own(c, fd.offset / 512)
    modifies vol, fd`lastReadSectorIndex, fd`lastReadSectorNo, entry
    ensures wrote ==> out == d
  {
    ghost var s := Scene(vol.links, vol.data, entry.node, fd.Now());
    ghost var l, start, cc := Landing(0, c, entry.node.start), 0, [];
    out := [];
    wrote, start, cc := FileWrite(vol, fd, entry, d, buffer, c, [], l);
    if wrote {
      ReadsBack(s, Scene(vol.links, vol.data, entry.node, fd.Now()), c, l, fd.offset, d, start, cc);
      var ok;
      ok, out := FileRead(vol, fd, entry.node, |d|, cc, [], Landing(0, cc, entry.node.start));
    }
  }

  lemma ReadsBack(s: Scene, t: Scene, c: seq<nat>, l: Landing, o: nat, d: seq<byte>, start: nat, cc: seq<nat>)
    requires InRange(c, |s.data|) && s.mark.Own(c, o / 512) && s.node.size <= 512 * |c| && l.base == 0
    requires WriteDone(s, t, c, l, o, d, true, start, cc) && l.chain == c
    ensures IsChain(t.links, t.node.start, cc) && InRange(cc, |t.data|) && t.mark.Ok(cc)
    ensures o + |d| <= t.node.size <= 512 * |cc| && Content(t.data, cc, t.node.size)[o..o + |d|] == d
    ensures !t.node.isDirectory && 0 < |d|
  {
    ReplacedIsOverwrite(Content(s.data, c, s.node.size), Content(t.data, cc, t.node.size), o, d);
  }

  // ---------------------------------------------------------------- deleting

  /** Frees the chain that starts at `start`: its sectors, all of them, and no other. */
  method FreeChain(vol: Volume, start: nat, ghost c: seq<nat>)
    requires vol.Valid() && IsChain(vol.links, start, c)
    modifies vol`links, vol`freePool
    ensures vol.Valid() && |vol.links| == |old(vol.links)|
    ensures forall s :: 0 <= s < |vol.links| ==> vol.links[s] == if s in c then 0 else old(vol.links)[s]
    ensures FreeSet(vol.links) == FreeSet(old(vol.links)) + set s | s in c
  {
    var cur := start;
    ghost var i := 0;
    ChainDistinct(vol.links, start, c);
    ChainInUse(vol.links, start, c);
    while cur != EOC
      invariant vol.Valid() && |vol.links| == |old(vol.links)| && i <= |c|
      invariant if i < |c| then cur == c[i] else cur == EOC
      invariant forall s :: 0 <= s < |vol.links| ==> vol.links[s] == if s in c[..i] then 0 else old(vol.links)[s]
      decreases |c| - i
    {
      assert i + 1 < |c| ==> old(vol.links)[c[i]] == c[i + 1];
      assert c[i] !in c[..i];
      cur := vol.DeAllocateSector(cur);
      i := i + 1;
      assert c[..i] == c[..i - 1] + [c[i - 1]];
    }
    assert c[..i] == c;
  }

  ghost function Members(c: seq<nat>): set<nat> { set s | s in c }

  lemma {:induction false} MembersCount(c: seq<nat>)
    requires Distinct(c)
    ensures |Members(c)| == |c|
  {
    if c == [] {
      assert Members(c) == {};
    } else {
      var n := |c| - 1;
      MembersCount(c[..n]);
      assert c[n] !in c[..n];
      assert c == c[..n] + [c[n]];
      assert Members(c) == Members(c[..n]) + {c[n]};
    }
  }

  /** Freeing a chain gives back as many sectors as it has. */
  lemma FreedCount(links0: seq<nat>, links: seq<nat>, start: nat, c: seq<nat>)
    requires |links0| < EOC && IsChain(links0, start, c)
    requires FreeSet(links) == FreeSet(links0) + set s | s in c
    ensures |FreeSet(links)| == |FreeSet(links0)| + |c|
  {
    ChainDistinct(links0, start, c);
    MembersCount(c);
    ChainInUse(links0, start, c);
    forall s | s in Members(c) ensures s !in FreeSet(links0) {
      var i :| 0 <= i < |c| && c[i] == s;
    }
    assert FreeSet(links) == FreeSet(links0) + Members(c);
  }

  ghost predicate ChainsApart(c: seq<nat>, e: seq<nat>) {
    forall s :: s in c ==> s !in e
  }

  /** A chain apart from the one written keeps its links and its bytes. */
  lemma ApartKept(links0: seq<nat>, data0: seq<Sector>, links: seq<nat>, data: seq<Sector>, e: seq<nat>, start: nat,
                  c: seq<nat>)
    requires OthersKept(links0, data0, links, data, e) && |links0| < EOC
    requires IsChain(links0, start, c) && ChainsApart(c, e)
    ensures IsChain(links, start, c) && InRange(c, |data0|) && InRange(c, |data|)
    ensures forall s :: s in c ==> links0[s] != 0 && links[s] == links0[s] && data[s] == data0[s]
  {
    ChainInUse(links0, start, c);
    forall s | s in c ensures links0[s] != 0 && links[s] == links0[s] && data[s] == data0[s] {
      var i :| 0 <= i < |c| && c[i] == s;
    }
  }

  /** Freeing a chain leaves a walk apart from it as it was. */
  lemma ApartUnfreed(links0: seq<nat>, links: seq<nat>, c: seq<nat>, start: nat, other: seq<nat>)
    requires |links| == |links0| && forall s :: 0 <= s < |links| ==> links[s] == if s in c then 0 else links0[s]
    requires IsWalk(links0, start, other) && ChainsApart(other, c)
    ensures IsWalk(links, start, other)
  {
    forall i | 0 <= i < |other| ensures links[other[i]] == links0[other[i]] {
      assert other[i] in other;
    }
  }
}
