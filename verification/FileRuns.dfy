/**
 Runs over the files of one volume, through any number of descriptors: the chains stay apart, every file is the byte
 sequence the writes to it make it, and the sectors are accounted for, up to the first use of a descriptor that
 remembers a sector off its file's chain.
 */
module FileRuns {
  import opened FileStore
  import opened Volume

  /** A file whose chain is apart from the one written keeps its chain and its bytes, and the chains stay apart. */
  lemma OtherKept(links0: seq<nat>, data0: seq<Sector>, c: seq<nat>, links: seq<nat>, data: seq<Sector>, cc: seq<nat>,
                  start: nat, other: seq<nat>, size: nat)
    requires OthersKept(links0, data0, links, data, c) && |links0| < EOC
    requires forall s :: s in cc ==> s in c || (s < |links0| && links0[s] == 0)
    requires IsChain(links0, start, other) && size <= 512 * |other| && ChainsApart(other, c)
    ensures IsChain(links, start, other) && ChainsApart(other, cc)
    ensures InRange(other, |data0|) && InRange(other, |data|)
    ensures Content(data, other, size) == Content(data0, other, size)
  {
    ApartKept(links0, data0, links, data, c, start, other);
  }

  /** Descriptors are opened on files; files are deleted and created again under them. */
  datatype Op =
    | Open(k: nat, file: nat)
    | WriteAt(k: nat, offset: nat, d: seq<byte>)
    | ReadAt(k: nat, offset: nat, n: nat)
    | Remove(file: nat)

  type Files = seq<seq<byte>>

  /** The bytes and the chain of each file, the number of free sectors, and of each descriptor its file and position. */
  datatype State = State(files: Files, chains: seq<seq<nat>>, free: nat, on: seq<nat>, marks: seq<Mark>)
  {
    ghost predicate Ok() {
      |files| == |chains| && |on| == |marks| && forall k :: 0 <= k < |on| ==> on[k] < |files|
    }
  }

  function FirstOf(c: seq<nat>): nat {
    if c == [] then EOC else c[0]
  }

  /** The operation goes through a remembered sector that is off the file's chain. */
  ghost predicate Strays(s: State, op: Op)
    requires s.Ok()
  {
    match op
    case WriteAt(k, o, d) =>
      k < |s.on| && d != [] &&
      var c := s.chains[s.on[k]]; !s.marks[k].Own(c, o / 512) && !s.marks[k].Refused(c, o / 512)
    case ReadAt(k, o, _) =>
      k < |s.on| && o < |s.files[s.on[k]]| &&
      var c := s.chains[s.on[k]]; !s.marks[k].Own(c, o / 512) && !s.marks[k].Refused(c, o / 512)
    case _ => false
  }

  /** What a write of `d` at `o` makes of a file with chain `c` and bytes `was`, beside `free` free sectors. */
  ghost predicate Wrote(c: seq<nat>, was: seq<byte>, free: nat, o: nat, d: seq<byte>, ok: bool,
                        c': seq<nat>, now: seq<byte>, free': nat)
  {
    && (ok <==> SectorsFor(o + |d|) <= |c| + free)
    && if ok then
         && c <= c' && |c'| == Max(|c|, SectorsFor(o + |d|)) && free' + |c'| == free + |c|
         && Replaced(was, now, o, d)
       else
         && Survived(was, now, o, |d|) && free' == 0
         && if c == [] then c' == [] else c <= c' && |c'| == |c| + free
  }

  /** The sector a write remembers: that of its start, or the last there was, which an empty file does not keep. */
  ghost predicate Marked(c: seq<nat>, free: nat, o: nat, ok: bool, chains: seq<seq<nat>>, c': seq<nat>, was: Mark,
                         m: Mark)
  {
    if o / 512 >= |c| && free == 0 then m == was
    else
      && m.index == Least(o / 512, |c| + free - 1)
      && if c == [] && !ok then m.sector != EOC && forall j :: 0 <= j < |chains| ==> m.sector !in chains[j]
         else 0 <= m.index < |c'| && m.sector == c'[m.index]
  }

  /** Of one file: what a write through a mark that does not stray makes of scene, chain and mark. */
  ghost predicate FileWritten(s: Scene, t: Scene, c: seq<nat>, c': seq<nat>, o: nat, d: seq<byte>, ok: bool)
    requires InRange(c, |s.data|) && s.node.size <= 512 * |c|
  {
    && OthersKept(s.links, s.data, t.links, t.data, c)
    && IsChain(t.links, t.node.start, c') && (forall x :: x in c' ==> x in c || (x < |s.links| && s.links[x] == 0))
    && InRange(c', |t.data|) && t.node.size <= 512 * |c'| && t.node.isDirectory == s.node.isDirectory
    && if d == [] then !ok && t == s && c' == c
       else if s.mark.Refused(c, o / 512) then !ok && t == s.(links := t.links) && c' == c && OneFewer(s.links, t.links)
       else
         && Wrote(c, Content(s.data, c, s.node.size), |FreeSet(s.links)|, o, d, ok,
              c', Content(t.data, c', t.node.size), |FreeSet(t.links)|)
         && MarkedFree(c, s.links, o, ok, c', s.mark, t.mark)
  }

  ghost predicate OneFewer(links0: seq<nat>, links: seq<nat>) {
    |FreeSet(links)| == if |FreeSet(links0)| == 0 then 0 else |FreeSet(links0)| - 1
  }

  ghost predicate MarkedFree(c: seq<nat>, links0: seq<nat>, o: nat, ok: bool, c': seq<nat>, was: Mark, m: Mark) {
    var free := |FreeSet(links0)|;
    if o / 512 >= |c| && free == 0 then m == was
    else
      && m.index == Least(o / 512, |c| + free - 1)
      && if c == [] && !ok then m.sector < |links0| && links0[m.sector] == 0
         else 0 <= m.index < |c'| && m.sector == c'[m.index]
  }

  lemma LeakCounts(links0: seq<nat>, links: seq<nat>)
    requires LeakedOne(links0, links)
    ensures OneFewer(links0, links) && |links| == |links0|
    ensures forall x :: 0 <= x < |links| && links0[x] != 0 ==> links[x] == links0[x]
  {
    if FreeSet(links0) != {} {
      var s :| s in FreeSet(links0) && links == links0[s := EOC];
      assert FreeSet(links) == FreeSet(links0) - {s};
    }
  }

  lemma FileWrittenIs(s: Scene, t: Scene, c: seq<nat>, l: Landing, o: nat, d: seq<byte>, ok: bool, start: nat,
                      cc: seq<nat>, c': seq<nat>)
    requires |s.links| == |s.data| < EOC && IsChain(s.links, s.node.start, c) && s.node.size <= 512 * |c|
    requires !s.node.isDirectory && (d != [] ==> s.mark.Own(c, o / 512) || s.mark.Refused(c, o / 512))
    requires l == s.mark.Target(c, [], s.node.start, o / 512)
    requires WriteDone(s, t, c, l, o, d, ok, start, cc)
    requires c' == if d == [] || s.mark.Refused(c, o / 512) then c else Kept(c, cc, ok)
    ensures FileWritten(s, t, c, c', o, d, ok) == true
  {
    if d == [] {
      assert OthersKept(s.links, s.data, t.links, t.data, c);
    } else if s.mark.Refused(c, o / 512) {
      LeakCounts(s.links, t.links);
      ApartKept(s.links, s.data, t.links, t.data, [], s.node.start, c);
    } else {
      OwnWritten(s, t, c, l, o, d, ok, start, cc);
    }
  }

  lemma OwnWritten(s: Scene, t: Scene, c: seq<nat>, l: Landing, o: nat, d: seq<byte>, ok: bool, start: nat,
                   cc: seq<nat>)
    requires |s.links| == |s.data| < EOC && IsChain(s.links, s.node.start, c) && s.node.size <= 512 * |c|
    requires !s.node.isDirectory && d != [] && s.mark.Own(c, o / 512) && l == Landing(0, c, s.node.start)
    requires WriteDone(s, t, c, l, o, d, ok, start, cc) == true
    ensures FileWritten(s, t, c, Kept(c, cc, ok), o, d, ok) == true
  {
    OwnMarked(s, t, c, l, o, d, ok, start, cc);
  }

  lemma OwnMarked(s: Scene, t: Scene, c: seq<nat>, l: Landing, o: nat, d: seq<byte>, ok: bool, start: nat, cc: seq<nat>)
    requires l.base == 0 && l.chain == c && |s.links| < EOC
    requires WentTo(s.links, s.data, s.node, l, t.links, t.data, t.node, start, cc, o, d, ok)
    requires Remembers(l, o / 512, |FreeSet(s.links)|, cc, s.mark, t.mark)
    requires ok <==> SectorsFor(o + |d|) <= |c| + |FreeSet(s.links)|
    ensures MarkedFree(c, s.links, o, ok, Kept(c, cc, ok), s.mark, t.mark) == true
  {
  }

  ghost predicate OthersSame<T>(s: seq<T>, t: seq<T>, i: nat) {
    |t| == |s| && forall j :: 0 <= j < |s| && j != i ==> t[j] == s[j]
  }

  /** What a step answers and makes of files and descriptors. */
  ghost predicate StepOk(s: State, op: Op, done: bool, t: State)
    requires s.Ok()
  {
    t.Ok() &&
    match op
    case Open(k, i) =>
      && done
      && t == if k < |s.on| && i < |s.files| then
                s.(on := s.on[k := i], marks := s.marks[k := Mark(0, FirstOf(s.chains[i]))])
              else s
    case Remove(i) =>
      && done
      && t == if i < |s.files| then
                s.(files := s.files[i := []], chains := s.chains[i := []], free := s.free + |s.chains[i]|)
              else s
    case ReadAt(k, o, n) =>
      if k >= |s.on| then t == s && done else ReadStep(s, k, o, done, t)
    case WriteAt(k, o, d) =>
      if k >= |s.on| then t == s && done else WriteStep(s, k, o, d, done, t)
  }

  ghost predicate ReadStep(s: State, k: nat, o: nat, done: bool, t: State)
    requires s.Ok() && k < |s.on|
  {
    var i, m := s.on[k], s.marks[k];
    && t == s.(marks := t.marks) && OthersSame(s.marks, t.marks, k)
    && if o >= |s.files[i]| then done && t == s
       else if m.Refused(s.chains[i], o / 512) then (done <==> o / 512 == m.index) && t == s
       else done && t.marks[k].Ok(s.chains[i])
  }

  ghost predicate WriteStep(s: State, k: nat, o: nat, d: seq<byte>, done: bool, t: State)
    requires s.Ok() && k < |s.on|
  {
    var i, m := s.on[k], s.marks[k];
    if d == [] then !done && t == s
    else if m.Refused(s.chains[i], o / 512) then !done && t == s.(free := if s.free == 0 then 0 else s.free - 1)
    else
      && t.on == s.on && OthersSame(s.files, t.files, i) && OthersSame(s.chains, t.chains, i)
      && OthersSame(s.marks, t.marks, k)
      && Wrote(s.chains[i], s.files[i], s.free, o, d, done, t.chains[i], t.files[i], t.free)
      && Marked(s.chains[i], s.free, o, done, t.chains, t.chains[i], m, t.marks[k])
  }

  /** A read answers the bytes of the file; through an end mark that is out of date it answers none. */
  ghost predicate AnswerOk(s: State, op: Op, answer: seq<byte>)
    requires s.Ok()
  {
    op.ReadAt? && op.k < |s.on| ==>
      var i, o, n := s.on[op.k], op.offset, op.n;
      var file := s.files[i];
      answer == if |file| <= o || s.marks[op.k].Refused(s.chains[i], o / 512) then []
                else if 0 < n <= |file| - o then file[o..o + n]
                else file[o..]
  }

  ghost predicate Used(links: seq<nat>, c: seq<nat>) {
    forall x :: x in c ==> x < |links| && links[x] != 0
  }

  ghost predicate AllUsed(links: seq<nat>, chains: seq<seq<nat>>) {
    forall j :: 0 <= j < |chains| ==> Used(links, chains[j])
  }

  lemma ChainUsed(links: seq<nat>, start: nat, c: seq<nat>)
    requires IsChain(links, start, c)
    ensures Used(links, c)
  {
    ChainInUse(links, start, c);
    forall x | x in c ensures x < |links| && links[x] != 0 {
      var i :| 0 <= i < |c| && c[i] == x;
    }
  }

  /** The step of the set from that of its one file. */
  lemma StepIs(s: State, t: State, k: nat, o: nat, d: seq<byte>, ok: bool, was: Scene, now: Scene, c: seq<nat>,
               c': seq<nat>)
    requires s.Ok() && t.Ok() && k < |s.on| && t.on == s.on
    requires InRange(c, |was.data|) && was.node.size <= 512 * |c| && FileWritten(was, now, c, c', o, d, ok)
    requires var i := s.on[k];
             && c == s.chains[i] && t.chains == s.chains[i := c'] && OthersSame(s.files, t.files, i)
             && s.files[i] == Content(was.data, c, was.node.size) && t.files[i] == Content(now.data, c', now.node.size)
    requires s.free == |FreeSet(was.links)| && t.free == |FreeSet(now.links)|
    requires s.marks[k] == was.mark && t.marks[k] == now.mark && OthersSame(s.marks, t.marks, k)
    requires AllUsed(was.links, s.chains) && |was.links| < EOC
    ensures StepOk(s, WriteAt(k, o, d), ok, t) == true
  {
    assert d == [] || s.marks[k].Refused(c, o / 512) ==>
        t.chains == s.chains && t.files == s.files && t.marks == s.marks;
  }

  lemma ReadIs(s: State, t: State, data: seq<Sector>, node: Node, was: Mark, m: Mark, c: seq<nat>, l: Landing, k: nat,
               o: nat, n: nat, done: bool, out: seq<byte>)
    requires s.Ok() && t.Ok() && k < |s.on| && !Strays(s, ReadAt(k, o, n))
    requires InRange(c, |data|) && node.size <= 512 * |c| && !node.isDirectory && c == s.chains[s.on[k]]
    requires t == s.(marks := t.marks) && OthersSame(s.marks, t.marks, k)
    requires s.files[s.on[k]] == Content(data, c, node.size) && s.marks[k] == was && t.marks[k] == m
    requires l == was.Way(c, [], node.start, o / 512) && ReadDone(data, node, was, m, c, l, o, n, done, out)
    ensures StepOk(s, ReadAt(k, o, n), done, t) == true && AnswerOk(s, ReadAt(k, o, n), out) == true
  {
    if m == was { assert t.marks == s.marks; }
  }

  /** The sectors reached from `start`, `n` at most. */
  function Followed(links: seq<nat>, start: nat, n: nat): seq<nat>
    decreases n
  {
    if n == 0 || start >= |links| then [] else [start] + Followed(links, links[start], n - 1)
  }

  lemma {:induction false} FollowedIs(links: seq<nat>, c: seq<nat>, i: nat, n: nat)
    requires IsChain(links, FirstOf(c), c) && |links| < EOC && i <= |c| && n >= |c| - i
    ensures Followed(links, At(c, i), n) == c[i..]
    decreases n
  {
    if i < |c| {
      assert links[c[i]] == At(c, i + 1);
      FollowedIs(links, c, i + 1, n - 1);
    }
  }

  function Range(n: nat): (r: set<nat>)
    ensures |r| == n && forall x :: x in r <==> 0 <= x < n
  {
    if n == 0 then {} else Range(n - 1) + {n - 1}
  }

  lemma {:induction false} SubsetCount(a: set<nat>, b: set<nat>)
    requires a <= b
    ensures |a| <= |b|
  {
    if a != {} {
      var x :| x in a;
      SubsetCount(a - {x}, b - {x});
    }
  }

  /** A chain is followed to its end in as many steps as the table has entries. */
  lemma ChainFollowed(links: seq<nat>, start: nat, c: seq<nat>)
    requires IsChain(links, start, c) && |links| < EOC
    ensures Followed(links, start, |links|) == c
  {
    ChainDistinct(links, start, c);
    MembersCount(c);
    SubsetCount(Members(c), Range(|links|));
    FollowedIs(links, c, 0, |links|);
  }

  class FileSet {
    const vol: Volume
    const slots: seq<DirEntry>
    const fds: seq<FileDescriptor>
    /** The file each descriptor is open on. */
    var on: seq<nat>
    ghost var chains: seq<seq<nat>>

    constructor (volume: Volume, entries: seq<DirEntry>, descriptors: seq<FileDescriptor>, files: seq<nat>)
      requires volume.Valid() && |files| == |descriptors| && forall k :: 0 <= k < |files| ==> files[k] < |entries|
      requires forall i :: 0 <= i < |entries| ==> entries[i].node == Node(false, EOC, 0)
      requires forall i, j :: 0 <= i < j < |entries| ==> entries[i] != entries[j]
      requires forall i, j :: 0 <= i < j < |descriptors| ==> descriptors[i] != descriptors[j]
      ensures Valid() && vol == volume && slots == entries && fds == descriptors && on == files
    {
      vol, slots, fds, on, chains := volume, entries, descriptors, files, seq(|entries|, _ => []);
    }

    ghost predicate Separate() reads `on {
      && |on| == |fds| && (forall k :: 0 <= k < |on| ==> on[k] < |slots|)
      && (forall i, j :: 0 <= i < j < |slots| ==> slots[i] != slots[j])
      && (forall i, j :: 0 <= i < j < |fds| ==> fds[i] != fds[j])
    }

    /** File `i`: no directory, and its chain on the volume long enough. */
    ghost predicate FileOk(i: nat)
      requires i < |slots| == |chains|
      reads `chains, vol, slots[i]
    {
      && !slots[i].node.isDirectory && IsChain(vol.links, slots[i].node.start, chains[i])
      && slots[i].node.size <= 512 * |chains[i]|
    }

    ghost predicate Valid() reads this, vol, slots {
      && Separate() && |chains| == |slots| && vol.Valid()
      && (forall i: nat :: i < |slots| ==> FileOk(i))
      && (forall i, j :: 0 <= i < |slots| && 0 <= j < |slots| && i != j ==> ChainsApart(chains[i], chains[j]))
    }

    ghost function FileBytes(i: nat): seq<byte>
      requires i < |slots| == |chains| && FileOk(i) && vol.Valid()
      reads `chains, vol, slots[i]
    {
      Content(vol.data, chains[i], slots[i].node.size)
    }

    ghost function ContentOf(i: nat): seq<byte>
      requires Valid() && i < |slots|
      reads this, vol, slots
    {
      assert FileOk(i);
      FileBytes(i)
    }

    ghost function Contents(): Files
      requires Valid()
      reads this, vol, slots
    {
      seq(|slots|, i requires 0 <= i < |slots| && Valid() reads this, vol, slots => ContentOf(i))
    }

    ghost function Marks(): seq<Mark> reads fds {
      seq(|fds|, k requires 0 <= k < |fds| reads fds => fds[k].Now())
    }

    ghost function Now(): (s: State)
      requires Valid()
      ensures s.Ok()
      reads this, vol, slots, fds
    {
      State(Contents(), chains, |FreeSet(vol.links)|, on, Marks())
    }

    method OpenOn(k: nat, i: nat)
      requires Valid() && k < |fds| && i < |slots|
      modifies `on, fds[k]
      ensures Valid() && StepOk(old(Now()), Op.Open(k, i), true, Now()) == true
    {
      ghost var s := Now();
      assert FileOk(i);
      fds[k].SetLastReadSector(0, slots[i].node.start);
      on := on[k := i];
      ContentsAre(s.files);
      MarksAre(s.marks[k := Mark(0, FirstOf(chains[i]))]);
    }

    /** The write itself. */
    method WriteOwn(k: nat, offset: nat, d: seq<byte>, buffer: Sector) returns (ok: bool, ghost c': seq<nat>)
      requires Valid() && k < |fds| && !Strays(Now(), Op.WriteAt(k, offset, d))
      modifies vol, slots[on[k]], fds[k]
      ensures vol.Valid() && InRange(chains[on[k]], |old(vol.data)|)
      ensures old(slots[on[k]].node).size <= 512 * |chains[on[k]]|
      ensures FileWritten(old(Scene(vol.links, vol.data, slots[on[k]].node, fds[k].Now())),
                Scene(vol.links, vol.data, slots[on[k]].node, fds[k].Now()), chains[on[k]], c', offset, d, ok) == true
    {
      var i := on[k];
      ghost var c := chains[i];
      assert FileOk(i);
      fds[k].offset := offset;
      ghost var s := Scene(vol.links, vol.data, slots[i].node, fds[k].Now());
      ghost var l := s.mark.Target(c, [], s.node.start, offset / 512);
      ghost var start, cc;
      ok, start, cc := FileWrite(vol, fds[k], slots[i], d, buffer, c, [], l);
      ghost var t := Scene(vol.links, vol.data, slots[i].node, fds[k].Now());
      c' := if d == [] || s.mark.Refused(c, offset / 512) then c else Kept(c, cc, ok);
      FileWrittenIs(s, t, c, l, offset, d, ok, start, cc, c');
    }

    lemma AllInUse()
      requires Valid()
      ensures AllUsed(vol.links, chains)
    {
      forall j: nat | j < |chains| ensures Used(vol.links, chains[j]) {
        assert FileOk(j);
        ChainUsed(vol.links, slots[j].node.start, chains[j]);
      }
    }

    lemma ContentsAre(files: Files)
      requires Valid() && |files| == |slots| && forall j: nat :: j < |slots| ==> ContentOf(j) == files[j]
      ensures Contents() == files
    {
    }

    lemma MarksAre(marks: seq<Mark>)
      requires |marks| == |fds| && forall k :: 0 <= k < |fds| ==> fds[k].Now() == marks[k]
      ensures Marks() == marks
    {
    }

    /** The write, and that no other file notices. */
    method WriteFile(k: nat, offset: nat, d: seq<byte>, buffer: Sector, ghost s: State)
      returns (ok: bool, ghost c': seq<nat>, ghost now: seq<byte>)
      requires Valid() && k < |fds| && s == Now() && !Strays(s, Op.WriteAt(k, offset, d))
      modifies `chains, vol, slots[on[k]], fds[k]
      ensures Valid() && chains == s.chains[on[k] := c'] && now == ContentOf(on[k])
      ensures forall j: nat :: j < |slots| && j != on[k] ==> ContentOf(j) == s.files[j]
      ensures old(slots[on[k]].node).size <= 512 * |s.chains[on[k]]| && InRange(s.chains[on[k]], |old(vol.data)|)
      ensures FileWritten(old(Scene(vol.links, vol.data, slots[on[k]].node, fds[k].Now())),
                Scene(vol.links, vol.data, slots[on[k]].node, fds[k].Now()), s.chains[on[k]], c', offset, d, ok) == true
      ensures now == Content(vol.data, c', slots[on[k]].node.size)
    {
      var i := on[k];
      ghost var c, links0, data0 := chains[i], vol.links, vol.data;
      assert FileOk(i);
      ok, c' := WriteOwn(k, offset, d, buffer);
      chains := chains[i := c'];
      assert FileOk(i);
      forall j: nat | j < |slots| && j != i
        ensures FileOk(j) && ChainsApart(chains[j], c') && FileBytes(j) == s.files[j]
      {
        assert old(FileOk(j)) && slots[j] != slots[i];
        OtherKept(links0, data0, c, vol.links, vol.data, c', slots[j].node.start, chains[j], slots[j].node.size);
      }
      now := FileBytes(i);
    }

    method WriteAt(k: nat, offset: nat, d: seq<byte>, buffer: Sector) returns (ok: bool)
      requires Valid() && k < |fds| && !Strays(Now(), Op.WriteAt(k, offset, d))
      modifies `chains, vol, slots[on[k]], fds[k]
      ensures Valid() && StepOk(old(Now()), Op.WriteAt(k, offset, d), ok, Now()) == true
    {
      var i := on[k];
      ghost var s := Now();
      assert FileOk(i);
      AllInUse();
      ghost var was := Scene(vol.links, vol.data, slots[i].node, fds[k].Now());
      ghost var c', now;
      ok, c', now := WriteFile(k, offset, d, buffer, s);
      ContentsAre(s.files[i := now]);
      MarksAre(s.marks[k := fds[k].Now()]);
      StepIs(s, Now(), k, offset, d, ok, was, Scene(vol.links, vol.data, slots[i].node, fds[k].Now()), s.chains[i], c');
    }

    method ReadAt(k: nat, offset: nat, n: nat) returns (done: bool, out: seq<byte>)
      requires Valid() && k < |fds| && !Strays(Now(), Op.ReadAt(k, offset, n))
      modifies fds[k]
      ensures Valid() && StepOk(old(Now()), Op.ReadAt(k, offset, n), done, Now()) == true
      ensures AnswerOk(old(Now()), Op.ReadAt(k, offset, n), out)
      ensures !old(fds[k].Now()).Refused(chains[on[k]], offset / 512) ==>
                var file := old(ContentOf(on[k]));
                out == if |file| <= offset then [] else if 0 < n <= |file| - offset then file[offset..offset + n]
                       else file[offset..]
    {
      ghost var s := Now();
      var i := on[k];
      ghost var c := chains[i];
      assert FileOk(i);
      fds[k].offset := offset;
      ghost var m := fds[k].Now();
      ghost var l := m.Way(c, [], slots[i].node.start, offset / 512);
      done, out := FileRead(vol, fds[k], slots[i].node, n, c, [], l);
      ContentsAre(s.files);
      MarksAre(s.marks[k := fds[k].Now()]);
      ReadIs(s, Now(), vol.data, slots[i].node, m, fds[k].Now(), c, l, k, offset, n, done, out);
    }

    /** The file is deleted and created again, without sectors; descriptors open on it stay as they are. */
    method Remove(i: nat)
      requires Valid() && i < |slots|
      modifies `chains, vol, slots[i]
      ensures Valid() && StepOk(old(Now()), Op.Remove(i), true, Now()) == true
    {
      ghost var links0, s := vol.links, Now();
      assert FileOk(i);
      FreeChain(vol, slots[i].node.start, chains[i]);
      FreedCount(links0, vol.links, slots[i].node.start, chains[i]);
      slots[i].node := Node(false, EOC, 0);
      ghost var c := chains[i];
      chains := chains[i := []];
      forall j: nat | j < |slots| ensures FileOk(j) && (j != i ==> FileBytes(j) == s.files[j]) {
        if j != i {
          assert old(FileOk(j)) && slots[j] != slots[i];
          ApartUnfreed(links0, vol.links, c, slots[j].node.start, chains[j]);
        }
      }
      ContentsAre(s.files[i := []]);
      MarksAre(s.marks);
    }

    /** Whether an operation would go through a sector off its file's chain, by following that chain. */
    method WouldStray(op: Op) returns (r: bool)
      requires Valid()
      ensures r <==> Strays(Now(), op)
    {
      if !(op.WriteAt? || op.ReadAt?) || op.k >= |fds| { return false; }
      var i := on[op.k];
      assert FileOk(i);
      var c := Followed(vol.links, slots[i].node.start, |vol.links|);
      ChainFollowed(vol.links, slots[i].node.start, chains[i]);
      var m := Mark(fds[op.k].lastReadSectorIndex, fds[op.k].lastReadSectorNo);
      var tried := if op.WriteAt? then op.d != [] else op.offset < slots[i].node.size;
      r := tried && !m.Own(c, op.offset / 512) && !m.Refused(c, op.offset / 512);
    }

    method Perform(op: Op, buffer: Sector) returns (done: bool, answer: seq<byte>)
      requires Valid() && !Strays(Now(), op)
      modifies this, vol, slots, fds
      ensures Valid() && StepOk(old(Now()), op, done, Now()) == true && AnswerOk(old(Now()), op, answer) == true
    {
      done, answer := true, [];
      match op
      case Open(k, i) =>
        if k < |fds| && i < |slots| { OpenOn(k, i); }
      case WriteAt(k, offset, d) =>
        if k < |fds| { done := WriteAt(k, offset, d, buffer); }
      case ReadAt(k, offset, n) =>
        if k < |fds| { done, answer := ReadAt(k, offset, n); }
      case Remove(i) =>
        if i < |slots| { Remove(i); }
    }

    /**
     Any run, up to the first operation that goes through a sector off its file's chain: each step succeeds exactly when
     it should and leads from the files and descriptors before it to those after, and reads answer from the ones before.
     */
    method Run(ops: seq<Op>, buffer: Sector)
      returns (done: seq<bool>, answers: seq<seq<byte>>, ghost states: seq<State>)
      requires Valid()
      modifies this, vol, slots, fds
      ensures Valid() && Traced(ops, done, answers, states)
      ensures states[0] == old(Now()) && states[|done|] == Now()
      ensures |done| < |ops| ==> Strays(Now(), ops[|done|])
    {
      done, answers, states := [], [], [Now()];
      while |done| < |ops|
        invariant Valid() == true && Traced(ops, done, answers, states) == true
        invariant states[0] == old(Now()) && states[|done|] == Now()
        decreases |ops| - |done|
      {
        var strays := WouldStray(ops[|done|]);
        if strays { return; }
        var d, a := Perform(ops[|done|], buffer);
        TracedOn(ops, done, answers, states, d, a, Now());
        done, answers, states := done + [d], answers + [a], states + [Now()];
      }
    }
  }

  /** Each step leads from one state to the next and answers from the first. */
  ghost predicate Traced(ops: seq<Op>, done: seq<bool>, answers: seq<seq<byte>>, states: seq<State>) {
    && |done| == |answers| <= |ops| && |states| == |done| + 1
    && (forall k :: 0 <= k < |states| ==> states[k].Ok())
    && forall k :: 0 <= k < |done| ==>
         StepOk(states[k], ops[k], done[k], states[k + 1]) && AnswerOk(states[k], ops[k], answers[k])
  }

  lemma TracedOn(ops: seq<Op>, done: seq<bool>, answers: seq<seq<byte>>, states: seq<State>, d: bool, a: seq<byte>,
                 s: State)
    requires Traced(ops, done, answers, states) && |done| < |ops| && states[|done|].Ok()
    requires StepOk(states[|done|], ops[|done|], d, s) && AnswerOk(states[|done|], ops[|done|], a)
    ensures Traced(ops, done + [d], answers + [a], states + [s])
  {
  }

  // ---------------------------------------------------------------- when a run strays

  /** A descriptor remembers a position of its file's chain, or an end mark of a file that has got sectors since. */
  ghost predicate OnChain(m: Mark, c: seq<nat>) {
    m.Ok(c) || (m.sector == EOC && c != [])
  }

  ghost predicate AllOnChain(s: State)
    requires s.Ok()
  {
    forall k :: 0 <= k < |s.on| ==> OnChain(s.marks[k], s.chains[s.on[k]])
  }

  /** A deletion, or a write to a file without sectors that fails: what takes sectors away from under a descriptor. */
  ghost predicate Unsettles(s: State, op: Op, done: bool)
    requires s.Ok()
  {
    op.Remove? || (op.WriteAt? && op.k < |s.on| && s.chains[s.on[op.k]] == [] && !done)
  }

  lemma OnChainGrown(m: Mark, c: seq<nat>, cc: seq<nat>)
    requires OnChain(m, c) && c <= cc
    ensures OnChain(m, cc)
  {
  }

  lemma StaysOnChain(s: State, op: Op, done: bool, t: State)
    requires s.Ok() && AllOnChain(s) && StepOk(s, op, done, t) && !Unsettles(s, op, done)
    ensures AllOnChain(t)
  {
    forall j | 0 <= j < |t.on| ensures OnChain(t.marks[j], t.chains[t.on[j]]) {
      if op.WriteAt? && op.k < |s.on| {
        var c, c' := s.chains[s.on[op.k]], t.chains[s.on[op.k]];
        assert c <= c';
        if s.on[j] == s.on[op.k] { OnChainGrown(s.marks[j], c, c'); }
      }
    }
  }

  lemma {:induction false} RunStaysOnChain(ops: seq<Op>, done: seq<bool>, answers: seq<seq<byte>>, states: seq<State>,
                                           n: nat)
    requires Traced(ops, done, answers, states) && n <= |done| && AllOnChain(states[0])
    requires forall k :: 0 <= k < n ==> !Unsettles(states[k], ops[k], done[k])
    ensures AllOnChain(states[n])
  {
    if n > 0 {
      RunStaysOnChain(ops, done, answers, states, n - 1);
      StaysOnChain(states[n - 1], ops[n - 1], done[n - 1], states[n]);
    }
  }

  /** A run strays only when a file was deleted before, or a first write to one failed. */
  lemma WhyItStrays(ops: seq<Op>, done: seq<bool>, answers: seq<seq<byte>>, states: seq<State>)
    requires Traced(ops, done, answers, states) && AllOnChain(states[0])
    requires |done| < |ops| && Strays(states[|done|], ops[|done|])
    ensures exists k :: 0 <= k < |done| && Unsettles(states[k], ops[k], done[k])
  {
    if forall k :: 0 <= k < |done| ==> !Unsettles(states[k], ops[k], done[k]) {
      RunStaysOnChain(ops, done, answers, states, |done|);
      assert false;
    }
  }
}
