/**
 Writes through a descriptor that remembers a sector off its file's chain: one taken by a first write that failed, or
 one of a file that has been deleted since.
 */
module StrayWrites {
  import opened Volume
  import opened FileStore

  /** What a descriptor opened anew finds is the old content with `d` at `o`. */
  ghost predicate Seen(t: Scene, was: seq<byte>, o: nat, d: seq<byte>) {
    exists c :: SeenAlong(t, c, was, o, d)
  }

  ghost predicate SeenAlong(t: Scene, c: seq<nat>, was: seq<byte>, o: nat, d: seq<byte>) {
    && IsChain(t.links, t.node.start, c) && InRange(c, |t.data|) && t.node.size <= 512 * |c|
    && Replaced(was, Content(t.data, c, t.node.size), o, d)
  }

  /**
   A write that succeeded is in the file exactly when it went along the file's own chain, that is, when the descriptor
   remembers a position of the chain or one behind the write, or when the chain held these bytes already.
   */
  lemma WriteSeen(s: Scene, t: Scene, c: seq<nat>, e: seq<nat>, l: Landing, o: nat, d: seq<byte>, start: nat,
                  cc: seq<nat>)
    requires |s.links| == |s.data| < EOC && IsChain(s.links, s.node.start, c) && s.node.size <= 512 * |c|
    requires s.mark.WayKnown(s.links, c, e, o / 512) && l == s.mark.Target(c, e, s.node.start, o / 512)
    requires WriteDone(s, t, c, l, o, d, true, start, cc)
    requires s.mark.Own(c, o / 512) || ChainsApart(c, l.chain)
    ensures Seen(t, Content(s.data, c, s.node.size), o, d) <==> s.mark.Own(c, o / 512) || Holds(s.data, c, o, d)
  {
    if s.mark.Own(c, o / 512) {
      assert SeenAlong(t, cc, Content(s.data, c, s.node.size), o, d);
      assert Seen(t, Content(s.data, c, s.node.size), o, d);
    } else if c != [] {
      StrayFromChain(s, t, c, l, o, d, start, cc);
    } else {
      StrayFromNone(s, t, e, l, o, d, start, cc);
    }
  }

  /** The file's chain and bytes are as they were, and at most the size has grown. */
  lemma StrayFromChain(s: Scene, t: Scene, c: seq<nat>, l: Landing, o: nat, d: seq<byte>, start: nat, cc: seq<nat>)
    requires |s.links| == |s.data| < EOC && IsChain(s.links, s.node.start, c) && s.node.size <= 512 * |c|
    requires c != [] && d != [] && l.start != EOC && ChainsApart(c, l.chain)
    requires WentTo(s.links, s.data, s.node, l, t.links, t.data, t.node, start, cc, o, d, true)
    ensures Seen(t, Content(s.data, c, s.node.size), o, d) <==> Holds(s.data, c, o, d)
  {
    var was := Content(s.data, c, s.node.size);
    ApartKept(s.links, s.data, t.links, t.data, l.chain, s.node.start, c);
    assert Along(t, c);
    if Seen(t, was, o, d) {
      var c' :| SeenAlong(t, c', was, o, d);
      ChainUnique(t.links, t.node.start, c', c);
      HeldBefore(s, t, c, o, d);
    }
    if Holds(s.data, c, o, d) {
      HeldAfter(s, t, c, o, d);
      assert SeenAlong(t, c, was, o, d);
    }
  }

  ghost predicate Along(t: Scene, c: seq<nat>) {
    IsChain(t.links, t.node.start, c) && InRange(c, |t.data|)
  }

  lemma HeldBefore(s: Scene, t: Scene, c: seq<nat>, o: nat, d: seq<byte>)
    requires InRange(c, |s.data|) && s.node.size <= 512 * |c| && t.node.size == Max(s.node.size, o + |d|)
    requires SeenAlong(t, c, Content(s.data, c, s.node.size), o, d) && forall x :: x in c ==> t.data[x] == s.data[x]
    ensures Holds(s.data, c, o, d)
  {
    var now := Content(t.data, c, t.node.size);
    forall k | 0 <= k < |d| ensures d[k] == ByteAt(s.data, c, o + k) {
      assert now[o + k] == d[o + k - o] == ByteAt(t.data, c, o + k);
    }
  }

  lemma HeldAfter(s: Scene, t: Scene, c: seq<nat>, o: nat, d: seq<byte>)
    requires InRange(c, |s.data|) && s.node.size <= 512 * |c| && t.node.size == Max(s.node.size, o + |d|)
    requires Along(t, c) && Holds(s.data, c, o, d) && forall x :: x in c ==> t.data[x] == s.data[x]
    ensures SeenAlong(t, c, Content(s.data, c, s.node.size), o, d)
  {
    var was, now := Content(s.data, c, s.node.size), Content(t.data, c, t.node.size);
    forall p | o <= p < o + |d| ensures now[p] == d[p - o] {
      assert d[p - o] == ByteAt(s.data, c, o + (p - o));
    }
  }

  /** A file without sectors stays without, or gets too few. */
  lemma StrayFromNone(s: Scene, t: Scene, e: seq<nat>, l: Landing, o: nat, d: seq<byte>, start: nat, cc: seq<nat>)
    requires |s.links| == |s.data| < EOC && s.node.start == EOC && s.node.size == 0 && d != []
    requires !s.mark.Own([], o / 512) && IsWalk(s.links, s.mark.sector, e)
    requires l == s.mark.Target([], e, s.node.start, o / 512)
    requires WentTo(s.links, s.data, s.node, l, t.links, t.data, t.node, start, cc, o, d, true)
    ensures !Seen(t, Content(s.data, [], 0), o, d) && !Holds(s.data, [], o, d)
  {
    var was := Content(s.data, [], 0);
    assert l.start == EOC ==> l.base >= 1;
    if Seen(t, was, o, d) {
      var c :| SeenAlong(t, c, was, o, d);
      var own: seq<nat> := if l.start == EOC then cc else [];
      if l.start == EOC { ExtendedPositive([], cc); }
      ChainUnique(t.links, t.node.start, c, own);
    }
  }

  /** What a stray write makes of a file whose chain leads through the remembered sector. */
  lemma OtherOverwritten(s: Scene, t: Scene, l: Landing, o: nat, d: seq<byte>, start: nat, cc: seq<nat>, x: seq<nat>,
                         first: nat, k: nat)
    requires WentTo(s.links, s.data, s.node, l, t.links, t.data, t.node, start, cc, o, d, true) && |s.links| < EOC
    requires IsChain(s.links, first, x) && k < |x| && l.chain == x[k..] && l.start != EOC
    ensures IsChain(t.links, first, x[..k] + cc) == true
    ensures Holds(t.data, x[..k] + cc, 512 * k + (o - 512 * l.base), d) == true
  {
    var at := o - 512 * l.base;
    Spliced(s, t, l, start, cc, x, first, k);
    forall i | 0 <= i < k ensures x[..k][i] < |t.data| {}
    SplicedHolds(t.data, x[..k], cc, k, at, 512 * k + at, d);
  }

  lemma Spliced(s: Scene, t: Scene, l: Landing, start: nat, cc: seq<nat>, x: seq<nat>, first: nat, k: nat)
    requires OthersKept(s.links, s.data, t.links, t.data, l.chain) && |s.links| < EOC
    requires IsWalk(t.links, start, cc) && l.chain <= cc && forall i :: |l.chain| <= i < |cc| ==> 0 < cc[i]
    requires IsChain(s.links, first, x) && k < |x| && l.chain == x[k..]
    ensures IsChain(t.links, first, x[..k] + cc) == true
  {
    ChainDistinct(s.links, first, x);
    ChainInUse(s.links, first, x);
    assert cc[0] == l.chain[0] == x[k];
    forall i | 0 <= i < k ensures t.links[x[i]] == x[i + 1] {
      assert x[i] !in x[k..] && s.links[x[i]] == x[i + 1];
    }
    forall i | 0 <= i < |cc| ensures 0 < cc[i] { assert i < |x| - k ==> cc[i] == l.chain[i] == x[k + i]; }
    JoinedChain(t.links, first, x, k, start, cc);
  }

  /** The first sectors of a chain go on as another walk from the next. */
  lemma JoinedChain(links: seq<nat>, first: nat, x: seq<nat>, k: nat, start: nat, cc: seq<nat>)
    requires k < |x| && first == x[0] && cc != [] && cc[0] == x[k] && IsWalk(links, start, cc) && AllPositive(cc)
    requires forall i :: 0 <= i < k ==> 0 < x[i] < |links| && links[x[i]] == x[i + 1]
    ensures IsChain(links, first, x[..k] + cc) == true
  {
    var y := x[..k] + cc;
    assert forall i :: 0 <= i < k ==> y[i] == x[i];
    assert forall i :: k <= i < |y| ==> y[i] == cc[i - k];
  }

  lemma SplicedHolds(data: seq<Sector>, p: seq<nat>, cc: seq<nat>, k: nat, at: nat, at': nat, d: seq<byte>)
    requires InRange(p, |data|) && Holds(data, cc, at, d) == true && k == |p| && at' == 512 * k + at
    ensures Holds(data, p + cc, at', d) == true
  {
    forall i | 0 <= i < |d| ensures d[i] == ByteAt(data, p + cc, at' + i) {
      assert d[i] == ByteAt(data, cc, at + i);
      assert (at' + i) / 512 == k + (at + i) / 512 && (at' + i) % 512 == (at + i) % 512;
    }
  }

  /**
   A first write that finds too few sectors, another file deleted, the write tried again: it succeeds, the slot says
   there are bytes, and one who opens the file reads none.
   */
  method RetryIsLost(vol: Volume, fd: FileDescriptor, entry: DirEntry, d: seq<byte>, buffer: Sector, other: nat,
                     ghost b: seq<nat>)
    returns (first: bool, second: bool, ok: bool, out: seq<byte>)
    requires vol.Valid() && IsChain(vol.links, other, b)
    requires entry.node == Node(false, EOC, 0) && fd.offset == 0 && fd.Now() == Mark(0, EOC)
    requires 0 < |FreeSet(vol.links)| < SectorsFor(|d|) <= |FreeSet(vol.links)| + |b|
    modifies vol, fd`lastReadSectorIndex, fd`lastReadSectorNo, entry
    ensures !first && second && entry.node == Node(false, EOC, |d|)
    ensures ok && out == []
  {
    ghost var s := Scene(vol.links, vol.data, entry.node, fd.Now());
    ghost var start, cc, start', cc';
    first, start, cc := FileWrite(vol, fd, entry, d, buffer, [], [], Landing(0, [], EOC));
    ghost var t := Scene(vol.links, vol.data, entry.node, fd.Now());
    FirstTry(s, t, d, first, start, cc, other, b);
    FreeChain(vol, other, b);
    FreedCount(t.links, vol.links, other, b);
    ApartUnfreed(t.links, vol.links, b, start, cc);
    ghost var u := Scene(vol.links, vol.data, entry.node, fd.Now());
    second, start', cc' := FileWrite(vol, fd, entry, d, buffer, [], cc, Landing(0, cc, start));
    SecondTry(u, Scene(vol.links, vol.data, entry.node, fd.Now()), d, second, start, cc, start', cc');
    ok, out := ReadAnew(vol, entry.node, |d|);
  }

  /** Whoever opens a file whose slot names no sector reads nothing, whatever its size. */
  method ReadAnew(vol: Volume, node: Node, n: nat) returns (ok: bool, out: seq<byte>)
    requires vol.Valid() && node == Node(false, EOC, n) && n > 0
    ensures ok && out == []
  {
    var fd := new FileDescriptor(node.start);
    ok, out := FileRead(vol, fd, node, n, [], [], Landing(0, [], EOC));
    NoneRead(vol.data, node, fd.Now(), n, ok, out);
  }

  lemma SecondTry(u: Scene, v: Scene, d: seq<byte>, ok: bool, start: nat, cc: seq<nat>, start': nat, cc': seq<nat>)
    requires |u.links| == |u.data| < EOC && u.node == Node(false, EOC, 0) && u.mark == Mark(0, start) && start != EOC
    requires IsChain(u.links, start, cc) && d != [] && SectorsFor(|d|) <= |cc| + |FreeSet(u.links)|
    requires WriteDone(u, v, [], Landing(0, cc, start), 0, d, ok, start', cc') == true
    ensures ok && v.node == Node(false, EOC, |d|)
  {
  }

  lemma NoneRead(data: seq<Sector>, node: Node, m: Mark, n: nat, ok: bool, out: seq<byte>)
    requires node == Node(false, EOC, n) && n > 0
    requires ReadDone(data, node, Mark(0, EOC), m, [], Landing(0, [], EOC), 0, n, ok, out) == true
    ensures ok && out == []
  {
  }

  lemma FirstTry(s: Scene, t: Scene, d: seq<byte>, ok: bool, start: nat, cc: seq<nat>, other: nat, b: seq<nat>)
    requires |s.links| == |s.data| < EOC && IsChain(s.links, other, b)
    requires s.node == Node(false, EOC, 0) && s.mark == Mark(0, EOC)
    requires 0 < |FreeSet(s.links)| < SectorsFor(|d|)
    requires WriteDone(s, t, [], Landing(0, [], EOC), 0, d, ok, start, cc) == true
    ensures !ok && t.node == s.node && t.mark == Mark(0, start) && start != EOC
    ensures IsChain(t.links, start, cc) == true && IsChain(t.links, other, b) == true && ChainsApart(cc, b) == true
    ensures |cc| == |FreeSet(s.links)| && FreeSet(t.links) == {}
  {
    ExtendedPositive([], cc);
    ApartKept(s.links, s.data, t.links, t.data, [], other, b);
    forall x | x in cc ensures x !in b {
      var i :| 0 <= i < |cc| && cc[i] == x;
    }
  }
}
