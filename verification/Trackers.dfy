/**
 The twenty-byte tracker that heads every block of the kernel heap, its XOR checksum, and what is read where a second
 tracker has been stored over part of one.
 */
module Trackers {
  import opened Bits

  /** `link` is the next free tracker of a free block, the stuffing of a live one. */
  datatype Tracker = Tracker(base: nat, ret: nat, size: nat, check: nat, link: nat)

  function CheckSum(t: Tracker): nat {
    Xor(Xor(Xor(t.base, t.size), t.ret), t.link)
  }

  function Seal(t: Tracker): Tracker {
    t.(check := CheckSum(t))
  }

  function FreeTracker(a: nat, size: nat, next: nat): Tracker {
    Seal(Tracker(a, 0, size, 0, next))
  }

  function LiveTracker(a: nat, size: nat, stuff: nat): Tracker {
    Seal(Tracker(a, a + 20 + stuff, size, 0, stuff))
  }

  predicate Intact(t: Tracker) {
    CheckSum(t) == t.check
  }

  /** A sealed tracker with one field changed fails the check. */
  lemma OneFieldDetected(t: Tracker, x: nat)
    ensures x != t.link ==> CheckSum(t.(link := x)) != CheckSum(t)
    ensures x != t.ret ==> CheckSum(t.(ret := x)) != CheckSum(t)
    ensures x != t.size ==> CheckSum(t.(size := x)) != CheckSum(t)
    ensures x != t.base ==> CheckSum(t.(base := x)) != CheckSum(t)
  {
    var u := Xor(t.base, t.size);
    var v := Xor(u, t.ret);
    if CheckSum(t.(link := x)) == CheckSum(t) {
      XorSymmetric(v, x);
      XorSymmetric(v, t.link);
      XorCancels(x, t.link, v);
    }
    if CheckSum(t.(ret := x)) == CheckSum(t) {
      XorCancels(Xor(u, x), v, t.link);
      XorSymmetric(u, x);
      XorSymmetric(u, t.ret);
      XorCancels(x, t.ret, u);
    }
    if CheckSum(t.(size := x)) == CheckSum(t) {
      XorCancels(Xor(Xor(t.base, x), t.ret), v, t.link);
      XorCancels(Xor(t.base, x), u, t.ret);
      XorSymmetric(t.base, x);
      XorSymmetric(t.base, t.size);
      XorCancels(x, t.size, t.base);
    }
    if CheckSum(t.(base := x)) == CheckSum(t) {
      XorCancels(Xor(Xor(x, t.size), t.ret), v, t.link);
      XorCancels(Xor(x, t.size), u, t.ret);
      XorCancels(x, t.base, t.size);
    }
  }

  // ---------------------------------------------------------------- a tracker byte by byte

  predicate Word(n: nat) { n < 0x1_0000_0000 }

  predicate Fits32(t: Tracker) {
    Word(t.base) && Word(t.ret) && Word(t.size) && Word(t.check) && Word(t.link)
  }

  /** Four bytes as a word, lowest first. */
  function Pack(b0: nat, b1: nat, b2: nat, b3: nat): nat {
    Pair(b0, Pair(b1, Pair(b2, b3)))
  }

  function WordBytes(n: nat): (bs: seq<nat>)
    ensures |bs| == 4
  {
    [n % 256, n / 256 % 256, n / 0x1_0000 % 256, n / 0x100_0000]
  }

  function Bytes(t: Tracker): (bs: seq<nat>)
    ensures |bs| == 20
  {
    WordBytes(t.base) + WordBytes(t.ret) + WordBytes(t.size) + WordBytes(t.check) + WordBytes(t.link)
  }

  predicate AllBytes(bs: seq<nat>) {
    forall i :: 0 <= i < |bs| ==> bs[i] < 256
  }

  function WordAt(bs: seq<nat>, i: nat): nat
    requires i + 4 <= |bs|
  {
    Pack(bs[i], bs[i + 1], bs[i + 2], bs[i + 3])
  }

  /** Twenty bytes read as a tracker. */
  function Read(bs: seq<nat>): Tracker
    requires |bs| == 20
  {
    Tracker(WordAt(bs, 0), WordAt(bs, 4), WordAt(bs, 8), WordAt(bs, 12), WordAt(bs, 16))
  }

  /** What is read in place of `above` once `below` is stored `s` bytes lower. */
  function Overlaid(below: Tracker, above: Tracker, s: nat): Tracker
    requires s <= 20
  {
    Read(Bytes(below)[s..] + Bytes(above)[20 - s..])
  }

  /** Nothing is left of a tracker that another is stored over whole. */
  lemma OverlaidWhole(below: Tracker, above: Tracker, s: nat)
    requires s == 0
    ensures Overlaid(below, above, s) == Read(Bytes(below))
  {
    var b, a := Bytes(below), Bytes(above);
    assert a[20 - s..] == [] && b[s..] == b;
    assert b[s..] + a[20 - s..] == b;
  }

  lemma ByteOff(n: nat)
    ensures n / 256 / 256 == n / 0x1_0000 && n / 0x1_0000 / 256 == n / 0x100_0000
    ensures n == Pair(n % 256, n / 256)
  {
    var r, q := n % 256, n / 256;
    assert n == r + 256 * (q % 256) + 0x1_0000 * (q / 256);
    var s, p := n % 0x1_0000, n / 0x1_0000;
    assert n == s + 0x1_0000 * (p % 256) + 0x100_0000 * (p / 256);
  }

  lemma WordReadBack(n: nat)
    requires Word(n)
    ensures Pack(n % 256, n / 256 % 256, n / 0x1_0000 % 256, n / 0x100_0000) == n && AllBytes(WordBytes(n))
  {
    ByteOff(n);
    assert n / 256 == Pair(n / 256 % 256, n / 0x1_0000);
    assert n / 0x1_0000 == Pair(n / 0x1_0000 % 256, n / 0x100_0000);
  }

  lemma ReadBack(t: Tracker)
    requires Fits32(t)
    ensures Read(Bytes(t)) == t && AllBytes(Bytes(t))
  {
    WordReadBack(t.base);
    WordReadBack(t.ret);
    WordReadBack(t.size);
    WordReadBack(t.check);
    WordReadBack(t.link);
  }

  /** Exclusive or of every fourth byte from place `i`. */
  function Lane(bs: seq<nat>, i: nat): nat
    decreases |bs| - i
  {
    if i >= |bs| then 0 else Xor(bs[i], Lane(bs, i + 4))
  }

  predicate SameLanes(bs: seq<nat>, cs: seq<nat>) {
    forall i: nat :: i < 4 ==> Lane(bs, i) == Lane(cs, i)
  }

  predicate ZeroLanes(bs: seq<nat>) {
    forall i: nat :: i < 4 ==> Lane(bs, i) == 0
  }

  lemma XorPacks(b0: nat, b1: nat, b2: nat, b3: nat, c0: nat, c1: nat, c2: nat, c3: nat)
    requires b0 < 256 && b1 < 256 && b2 < 256 && b3 < 256 && c0 < 256 && c1 < 256 && c2 < 256 && c3 < 256
    ensures Xor(Pack(b0, b1, b2, b3), Pack(c0, c1, c2, c3)) == Pack(Xor(b0, c0), Xor(b1, c1), Xor(b2, c2), Xor(b3, c3))
    ensures Xor(b0, c0) < 256 && Xor(b1, c1) < 256 && Xor(b2, c2) < 256 && Xor(b3, c3) < 256
  {
    XorPairs(b0, Pair(b1, Pair(b2, b3)), c0, Pair(c1, Pair(c2, c3)));
    XorPairs(b1, Pair(b2, b3), c1, Pair(c2, c3));
    XorPairs(b2, b3, c2, c3);
    XorPairs(b3, 0, c3, 0);
  }

  lemma PairsEqual(x: nat, y: nat, u: nat, v: nat)
    requires x < 256 && u < 256
    ensures Pair(x, y) == Pair(u, v) <==> x == u && y == v
  {
  }

  lemma PacksEqual(b0: nat, b1: nat, b2: nat, b3: nat, c0: nat, c1: nat, c2: nat, c3: nat)
    requires b0 < 256 && b1 < 256 && b2 < 256 && b3 < 256 && c0 < 256 && c1 < 256 && c2 < 256 && c3 < 256
    ensures Pack(b0, b1, b2, b3) == Pack(c0, c1, c2, c3) <==> b0 == c0 && b1 == c1 && b2 == c2 && b3 == c3
  {
    PairsEqual(b0, Pair(b1, Pair(b2, b3)), c0, Pair(c1, Pair(c2, c3)));
    PairsEqual(b1, Pair(b2, b3), c1, Pair(c2, c3));
    PairsEqual(b2, b3, c2, c3);
  }

  lemma FiveXor(a: nat, b: nat, c: nat, d: nat, e: nat)
    ensures Xor(Xor(Xor(a, c), b), e) == d <==> Xor(a, Xor(b, Xor(c, Xor(d, Xor(e, 0))))) == 0
  {
    var v := Xor(Xor(a, c), b);
    XorZero(e);
    calc {
      Xor(Xor(v, e), d);
      { XorAssociative(v, e, d); XorSymmetric(e, d); }
      Xor(v, Xor(d, e));
      { XorAssociative(a, c, b); XorSymmetric(c, b); }
      Xor(Xor(a, Xor(b, c)), Xor(d, e));
      { XorAssociative(a, Xor(b, c), Xor(d, e)); XorAssociative(b, c, Xor(d, e)); }
      Xor(a, Xor(b, Xor(c, Xor(d, e))));
    }
    XorEqual(Xor(v, e), d);
  }

  /** The bytes of the words that make up the checksum, in one lane. */
  function Sum(bs: seq<nat>, i: nat): nat
    requires |bs| == 20 && i < 4
  {
    Xor(Xor(Xor(bs[i], bs[i + 8]), bs[i + 4]), bs[i + 16])
  }

  lemma LaneOfFive(bs: seq<nat>, i: nat)
    requires |bs| == 20 && i < 4
    ensures Sum(bs, i) == bs[i + 12] <==> Lane(bs, i) == 0
  {
    assert Lane(bs, i + 16) == Xor(bs[i + 16], Lane(bs, i + 20));
    assert Lane(bs, i + 8) == Xor(bs[i + 8], Lane(bs, i + 12));
    FiveXor(bs[i], bs[i + 4], bs[i + 8], bs[i + 12], bs[i + 16]);
  }

  lemma CheckSumBytes(bs: seq<nat>)
    requires |bs| == 20 && AllBytes(bs)
    ensures CheckSum(Read(bs)) == Pack(Sum(bs, 0), Sum(bs, 1), Sum(bs, 2), Sum(bs, 3))
    ensures Sum(bs, 0) < 256 && Sum(bs, 1) < 256 && Sum(bs, 2) < 256 && Sum(bs, 3) < 256
  {
    var x0, x1, x2, x3 := Xor(bs[0], bs[8]), Xor(bs[1], bs[9]), Xor(bs[2], bs[10]), Xor(bs[3], bs[11]);
    XorPacks(bs[0], bs[1], bs[2], bs[3], bs[8], bs[9], bs[10], bs[11]);
    XorPacks(x0, x1, x2, x3, bs[4], bs[5], bs[6], bs[7]);
    XorPacks(Xor(x0, bs[4]), Xor(x1, bs[5]), Xor(x2, bs[6]), Xor(x3, bs[7]), bs[16], bs[17], bs[18], bs[19]);
  }

  /** Twenty bytes pass the check exactly when each of their four lanes folds to zero. */
  lemma IntactLanes(bs: seq<nat>)
    requires |bs| == 20 && AllBytes(bs)
    ensures Intact(Read(bs)) <==> ZeroLanes(bs)
  {
    CheckSumBytes(bs);
    PacksEqual(Sum(bs, 0), Sum(bs, 1), Sum(bs, 2), Sum(bs, 3), bs[12], bs[13], bs[14], bs[15]);
    forall i: nat | i < 4 ensures Sum(bs, i) == bs[i + 12] <==> Lane(bs, i) == 0 {
      LaneOfFive(bs, i);
    }
  }

  /** Where the lanes of a sequence go on behind a part of `n` bytes. */
  function Behind(n: nat, i: nat): nat
    decreases n - i
  {
    if i >= n then i - n else Behind(n, i + 4)
  }

  lemma {:induction false} LaneOfJoin(bs: seq<nat>, cs: seq<nat>, i: nat)
    ensures Lane(bs + cs, i) == Xor(Lane(bs, i), Lane(cs, Behind(|bs|, i)))
    decreases |bs| - i
  {
    if i >= |bs| {
      LaneBehind(bs, cs, i);
      XorZero(Lane(cs, i - |bs|));
    } else {
      LaneOfJoin(bs, cs, i + 4);
      XorAssociative(bs[i], Lane(bs, i + 4), Lane(cs, Behind(|bs|, i)));
    }
  }

  lemma {:induction false} LaneBehind(bs: seq<nat>, cs: seq<nat>, i: nat)
    requires i >= |bs|
    ensures Lane(bs + cs, i) == Lane(cs, i - |bs|)
    decreases |bs| + |cs| - i
  {
    if i < |bs| + |cs| { LaneBehind(bs, cs, i + 4); }
  }

  /**
   The tracker read where another has been stored over its first bytes passes the check exactly when those bytes fold as
   the ones they replace.
   */
  lemma OverlaidPasses(below: Tracker, above: Tracker, s: nat)
    requires Fits32(below) && Fits32(above) && Intact(above) && s <= 20
    ensures Intact(Overlaid(below, above, s)) <==> SameLanes(Bytes(below)[s..], Bytes(above)[..20 - s])
  {
    var over, under, kept := Bytes(below)[s..], Bytes(above)[..20 - s], Bytes(above)[20 - s..];
    ReadBack(below);
    ReadBack(above);
    assert under + kept == Bytes(above);
    IntactLanes(Bytes(above));
    IntactLanes(over + kept);
    forall i: nat | i < 4 ensures Lane(over + kept, i) == 0 <==> Lane(over, i) == Lane(under, i) {
      var j := Behind(20 - s, i);
      LaneOfJoin(over, kept, i);
      LaneOfJoin(under, kept, i);
      XorEqual(Lane(over, i), Lane(kept, j));
      XorEqual(Lane(under, i), Lane(kept, j));
    }
  }

  // ---------------------------------------------------------------- a live tracker under the free one of its block

  /** The words below the address of a block with `s` bytes of stuffing, once the block has been freed. */
  function ReadAfterFree(a: nat, size: nat, next: nat, s: nat): Tracker
    requires s <= 20
  {
    Overlaid(FreeTracker(a, size, next), LiveTracker(a, size, s), s)
  }

  lemma WordsXor(a: nat, b: nat)
    requires Word(a) && Word(b)
    ensures Word(Xor(a, b))
  {
    assert Power(32) == 0x1_0000_0000 by {
      assert Power(8) == 256 by { assert Power(4) == 16; }
      assert Power(16) == 0x1_0000 by { assert Power(12) == 0x1000; }
      assert Power(24) == 0x100_0000 by { assert Power(20) == 0x10_0000; }
      assert Power(28) == 0x1000_0000;
    }
    XorBelow(a, b, 32);
  }

  lemma SealFits(t: Tracker)
    requires Word(t.base) && Word(t.ret) && Word(t.size) && Word(t.link)
    ensures Fits32(Seal(t)) && Intact(Seal(t))
  {
    WordsXor(t.base, t.size);
    WordsXor(Xor(t.base, t.size), t.ret);
    WordsXor(Xor(Xor(t.base, t.size), t.ret), t.link);
  }

  lemma BothFit(a: nat, size: nat, next: nat, s: nat)
    requires Word(a + 20 + s) && Word(size) && Word(next)
    ensures Fits32(FreeTracker(a, size, next)) && Fits32(LiveTracker(a, size, s))
    ensures Intact(FreeTracker(a, size, next)) && Intact(LiveTracker(a, size, s))
  {
    SealFits(Tracker(a, 0, size, 0, next));
    SealFits(Tracker(a, a + 20 + s, size, 0, s));
  }

  /** Whole words of stuffing: which words of the two trackers are read. */
  lemma FreedWords(a: nat, size: nat, next: nat, s: nat)
    requires Word(a + 20 + s) && Word(size) && Word(next) && s in [4, 8, 12, 16]
    ensures var f, l := FreeTracker(a, size, next), LiveTracker(a, size, s);
            && (s == 4 ==> ReadAfterFree(a, size, next, s) == Tracker(0, size, f.check, next, s))
            && (s == 8 ==> ReadAfterFree(a, size, next, s) == Tracker(size, f.check, next, l.check, s))
            && (s == 12 ==> ReadAfterFree(a, size, next, s) == Tracker(f.check, next, size, l.check, s))
            && (s == 16 ==> ReadAfterFree(a, size, next, s) == Tracker(next, a + 20 + s, size, l.check, s))
  {
    BothFit(a, size, next, s);
    ReadBack(FreeTracker(a, size, next));
    ReadBack(LiveTracker(a, size, s));
  }

  lemma CheckOfFree(a: nat, size: nat, next: nat)
    ensures FreeTracker(a, size, next).check == Xor(Xor(a, size), next)
    ensures Xor(Xor(a, size), next) == Xor(Xor(a, next), size)
  {
    XorZero(Xor(a, size));
    XorSwap(a, size, next);
  }

  lemma FreedByOneWord(a: nat, size: nat, next: nat)
    requires Word(a + 24) && Word(size) && Word(next)
    ensures Intact(ReadAfterFree(a, size, next, 4)) <==> a == 4
  {
    var f := FreeTracker(a, size, next).check;
    FreedWords(a, size, next, 4);
    CheckOfFree(a, size, next);
    XorZero(f);
    XorUndone(Xor(a, next), size);
    assert CheckSum(ReadAfterFree(a, size, next, 4)) == Xor(Xor(a, next), 4);
    XorSwap(a, next, 4);
    XorEqual(a, 4);
    XorZero(next);
    if Xor(Xor(a, 4), next) == next { XorCancels(Xor(a, 4), 0, next); }
  }

  lemma FreedByTwoWords(a: nat, size: nat, next: nat)
    requires Word(a + 28) && Word(size) && Word(next)
    ensures Intact(ReadAfterFree(a, size, next, 8)) <==> a + 28 == size
    ensures ReadAfterFree(a, size, next, 8).ret == Xor(Xor(a, size), next) && ReadAfterFree(a, size, next, 8).link == 8
  {
    var f, addr := FreeTracker(a, size, next).check, a + 28;
    FreedWords(a, size, next, 8);
    CheckOfFree(a, size, next);
    assert Xor(Xor(size, next), f) == a by {
      XorSymmetric(Xor(size, next), f);
      XorAssociative(a, size, next);
      XorUndone(a, Xor(size, next));
    }
    CheckMatches(a, size, addr, 8);
  }

  lemma FreedByThreeWords(a: nat, size: nat, next: nat)
    requires Word(a + 32) && Word(size) && Word(next)
    ensures Intact(ReadAfterFree(a, size, next, 12)) <==> a + 32 == size
    ensures ReadAfterFree(a, size, next, 12).ret == next && ReadAfterFree(a, size, next, 12).link == 12
  {
    var f, addr := FreeTracker(a, size, next).check, a + 32;
    FreedWords(a, size, next, 12);
    CheckOfFree(a, size, next);
    XorUndone(Xor(a, next), size);
    XorUndone(a, next);
    CheckMatches(a, size, addr, 12);
  }

  /** The live tracker's checksum is that of its base and its stuffing exactly when size and address are equal. */
  lemma CheckMatches(a: nat, size: nat, addr: nat, s: nat)
    ensures Xor(a, s) == Xor(Xor(Xor(a, size), addr), s) <==> addr == size
  {
    XorUndone(a, size);
    if Xor(a, s) == Xor(Xor(Xor(a, size), addr), s) {
      XorCancels(a, Xor(Xor(a, size), addr), s);
      XorSymmetric(Xor(a, size), addr);
      XorSymmetric(Xor(a, size), size);
      XorCancels(addr, size, Xor(a, size));
    }
  }

  lemma FreedByFourWords(a: nat, size: nat, next: nat)
    requires Word(a + 36) && Word(size) && Word(next)
    ensures Intact(ReadAfterFree(a, size, next, 16)) <==> a == next
  {
    var addr := a + 36;
    FreedWords(a, size, next, 16);
    if Intact(ReadAfterFree(a, size, next, 16)) {
      XorCancels(Xor(Xor(next, size), addr), Xor(Xor(a, size), addr), 16);
      XorCancels(Xor(next, size), Xor(a, size), addr);
      XorCancels(next, a, size);
    }
  }

  lemma {:induction false} LaneOfTail(bs: seq<nat>, s: nat, i: nat)
    requires s <= |bs|
    ensures Lane(bs[s..], i) == Lane(bs, s + i)
    decreases |bs| - i
  {
    if s + i < |bs| { LaneOfTail(bs, s, i + 4); }
  }

  lemma LaneBelowTail(bs: seq<nat>, k: nat)
    requires |bs| == 20 && ZeroLanes(bs) && k < 8
    ensures Lane(bs, k) == if k < 4 then 0 else bs[k - 4]
  {
    if k >= 4 {
      assert Lane(bs, k - 4) == 0;
      XorEqual(bs[k - 4], Lane(bs, k));
    }
  }

  lemma BehindIs(s: nat, i: nat)
    requires 1 <= s <= 3 && i < 4
    ensures Behind(20 - s, i) == if i + s < 4 then i + s else i + s - 4
  {
    var n := 20 - s;
    assert Behind(n, i) == Behind(n, i + 4);
    assert Behind(n, i + 4) == Behind(n, i + 8);
    assert Behind(n, i + 8) == Behind(n, i + 12);
    assert Behind(n, i + 12) == Behind(n, i + 16);
    if i + s < 4 { assert Behind(n, i + 16) == Behind(n, i + 20); }
  }

  lemma LaneOfPrefix(bs: seq<nat>, s: nat, i: nat)
    requires |bs| == 20 && ZeroLanes(bs) && 1 <= s <= 3 && i < 4
    ensures Lane(bs[..20 - s], i) == if i + s < 4 then 0 else bs[16 + i]
  {
    var head, tail, j := bs[..20 - s], bs[20 - s..], Behind(20 - s, i);
    assert head + tail == bs;
    LaneOfJoin(head, tail, i);
    XorEqual(Lane(head, i), Lane(tail, j));
    BehindIs(s, i);
    if i + s >= 4 {
      assert tail[j] == bs[16 + i] && Lane(tail, j + 4) == 0;
      XorZero(tail[j]);
    }
  }

  ghost predicate LowBytesZero(a: nat, s: nat)
    requires s <= 4
  {
    forall j :: 0 <= j < s ==> WordBytes(a)[j] == 0
  }

  lemma LinkBytes(t: Tracker)
    requires t.link < 256
    ensures Bytes(t)[16..] == [t.link, 0, 0, 0]
  {
    var front := WordBytes(t.base) + WordBytes(t.ret) + WordBytes(t.size) + WordBytes(t.check);
    assert Bytes(t) == front + WordBytes(t.link) && |front| == 16;
  }

  /** All but the last bytes of a tracker whose link is below 256. */
  lemma LanesOfStuffed(ls: seq<nat>, s: nat, i: nat)
    requires |ls| == 20 && ZeroLanes(ls) && 1 <= s <= 3 && i < 4
    requires ls[16..] == [s, 0, 0, 0]
    ensures Lane(ls[..20 - s], i) == 0
  {
    LaneOfPrefix(ls, s, i);
    assert i > 0 ==> ls[16 + i] == ls[16..][i] == 0;
  }

  /** The bytes left of a free tracker and those overwritten of a live one have the same lanes or not. */
  lemma LanesOfFreed(fs: seq<nat>, ls: seq<nat>, a: nat, s: nat)
    requires |fs| == |ls| == 20 && ZeroLanes(fs) && ZeroLanes(ls) && 1 <= s <= 3
    requires fs[..4] == WordBytes(a) && ls[16..] == [s, 0, 0, 0]
    ensures SameLanes(fs[s..], ls[..20 - s]) <==> LowBytesZero(a, s)
  {
    forall i: nat | i < 4
      ensures Lane(fs[s..], i) == if s + i < 4 then 0 else WordBytes(a)[s + i - 4]
      ensures Lane(ls[..20 - s], i) == 0
    {
      LaneOfTail(fs, s, i);
      LaneBelowTail(fs, s + i);
      assert s + i >= 4 ==> fs[s + i - 4] == fs[..4][s + i - 4];
      LanesOfStuffed(ls, s, i);
    }
    forall j: nat | j < s ensures Lane(fs[s..], 4 - s + j) == WordBytes(a)[j] {}
  }

  /** Less than a word of stuffing: the lowest bytes of the base decide. */
  lemma FreedByBytes(a: nat, size: nat, next: nat, s: nat)
    requires Word(a + 20 + s) && Word(size) && Word(next) && 1 <= s <= 3
    ensures Intact(ReadAfterFree(a, size, next, s)) <==> LowBytesZero(a, s)
  {
    var f, l := FreeTracker(a, size, next), LiveTracker(a, size, s);
    BothFit(a, size, next, s);
    OverlaidPasses(f, l, s);
    var fs, ls := Bytes(f), Bytes(l);
    LanesOfIntact(f);
    LanesOfIntact(l);
    LinkBytes(l);
    BaseBytes(f);
    LanesOfFreed(fs, ls, a, s);
  }

  lemma LanesOfIntact(t: Tracker)
    requires Fits32(t) && Intact(t)
    ensures ZeroLanes(Bytes(t))
  {
    ReadBack(t);
    IntactLanes(Bytes(t));
  }

  lemma BaseBytes(t: Tracker)
    ensures Bytes(t)[..4] == WordBytes(t.base)
  {
  }

  lemma LaneOfShort(bs: seq<nat>, i: nat)
    requires |bs| <= 4
    ensures Lane(bs, i) == if i < |bs| then bs[i] else 0
  {
    if i < |bs| { XorZero(bs[i]); }
  }

  ghost predicate HighIsLow(next: nat, a: nat, s: nat)
    requires s <= 4
  {
    forall j :: s <= j < 4 ==> WordBytes(next)[j] == WordBytes(a)[j - s]
  }

  /** Between four and five words: the high bytes of the list head and the low ones of the base decide. */
  lemma FreedByTail(a: nat, size: nat, next: nat, s: nat)
    requires Word(a + 20 + s) && Word(size) && Word(next) && 17 <= s <= 19
    ensures Intact(ReadAfterFree(a, size, next, s)) <==> HighIsLow(next, a, s - 16)
  {
    var f, l := FreeTracker(a, size, next), LiveTracker(a, size, s);
    BothFit(a, size, next, s);
    OverlaidPasses(f, l, s);
    forall i: nat | i < 4
      ensures Lane(Bytes(f)[s..], i) == Lane(Bytes(l)[..20 - s], i) <==>
                (s - 16 + i < 4 ==> WordBytes(next)[s - 16 + i] == WordBytes(a)[i])
    {
      LaneOfShort(Bytes(f)[s..], i);
      LaneOfShort(Bytes(l)[..20 - s], i);
    }
    if SameLanes(Bytes(f)[s..], Bytes(l)[..20 - s]) {
      forall j | s - 16 <= j < 4 ensures WordBytes(next)[j] == WordBytes(a)[j - (s - 16)] {
        assert Lane(Bytes(f)[s..], j - (s - 16)) == Lane(Bytes(l)[..20 - s], j - (s - 16));
      }
    }
  }

  // ---------------------------------------------------------------- odd numbers of bytes between whole words

  /** Of a whole tracker, what a lane still holds behind its first words. */
  lemma LaneBehindWords(bs: seq<nat>, j: nat)
    requires |bs| == 20 && j < 4 && Lane(bs, j) == 0
    ensures Lane(bs, j + 4) == bs[j] && Lane(bs, j + 8) == Xor(bs[j], bs[j + 4])
    ensures Lane(bs, j + 12) == Xor(Xor(bs[j], bs[j + 4]), bs[j + 8]) && Lane(bs, j + 16) == bs[j + 16]
  {
    XorEqual(bs[j], Lane(bs, j + 4));
    XorTaken(bs[j + 4], Lane(bs, j + 8), bs[j]);
    XorTaken(bs[j + 8], Lane(bs, j + 12), Xor(bs[j], bs[j + 4]));
    assert Lane(bs, j + 20) == 0;
    XorZero(bs[j + 16]);
  }

  lemma XorTaken(b: nat, rest: nat, x: nat)
    requires Xor(b, rest) == x
    ensures rest == Xor(x, b)
  {
    XorSymmetric(b, rest);
    XorUndone(rest, b);
  }

  /** A lane of one to three bytes. */
  lemma ShortLane(bs: seq<nat>, i: nat)
    ensures i < |bs| <= i + 4 ==> Lane(bs, i) == bs[i]
    ensures i + 4 < |bs| <= i + 8 ==> Lane(bs, i) == Xor(bs[i], bs[i + 4])
    ensures i + 8 < |bs| <= i + 12 ==> Lane(bs, i) == Xor(bs[i], Xor(bs[i + 4], bs[i + 8]))
  {
    if i < |bs| <= i + 4 { LastOfLane(bs, i); }
    if i + 4 < |bs| <= i + 8 { LastOfLane(bs, i + 4); }
    if i + 8 < |bs| <= i + 12 {
      LastOfLane(bs, i + 8);
      assert Lane(bs, i + 4) == Xor(bs[i + 4], bs[i + 8]);
    }
  }

  lemma LastOfLane(bs: seq<nat>, i: nat)
    requires i < |bs| <= i + 4
    ensures Lane(bs, i) == bs[i]
  {
    assert Lane(bs, i + 4) == 0;
    XorZero(bs[i]);
  }

  /** A lane is what it holds below `n` and what it holds from there, the first place of it being `m`. */
  lemma {:induction false} LaneCut(bs: seq<nat>, n: nat, i: nat, m: nat)
    requires n <= |bs| && i <= m && (m - i) % 4 == 0 && n <= m < n + 4
    ensures Lane(bs, i) == Xor(Lane(bs[..n], i), Lane(bs, m))
    decreases m - i
  {
    if i == m {
      XorZero(Lane(bs, m));
    } else {
      LaneCut(bs, n, i + 4, m);
      assert bs[..n][i] == bs[i];
      XorAssociative(bs[i], Lane(bs[..n], i + 4), Lane(bs, m));
    }
  }

  lemma ByteOfWord(t: Tracker, i: nat)
    requires i < 4
    ensures var bs := Bytes(t);
            && bs[i] == WordBytes(t.base)[i] && bs[i + 4] == WordBytes(t.ret)[i] && bs[i + 8] == WordBytes(t.size)[i]
            && bs[i + 16] == WordBytes(t.link)[i]
  {
  }

  /** Lane `i` of what is left of the free tracker behind `w` words and `r` bytes. */
  function FreeByte(a: nat, size: nat, next: nat, w: nat, r: nat, i: nat): nat
    requires i < 4 && 1 <= w <= 3 && 1 <= r <= 3
  {
    var A, Z := WordBytes(a), WordBytes(size);
    if i + r < 4 then
      if w < 3 then A[i + r] else Xor(A[i + r], Z[i + r])
    else
      if w == 1 then A[i + r - 4] else if w == 2 then Xor(A[i + r - 4], Z[i + r - 4]) else WordBytes(next)[i + r - 4]
  }

  /** Lane `i` of what the live tracker with the address `ret` has lost but for its last `w` words and `r` bytes. */
  function LiveByte(a: nat, ret: nat, size: nat, w: nat, r: nat, i: nat): nat
    requires i < 4 && 1 <= w <= 3 && 1 <= r <= 3
  {
    var A, R, Z := WordBytes(a), WordBytes(ret), WordBytes(size);
    if i + r < 4 then
      if w == 1 then (if i == 0 then 4 + r else 0) else if w == 2 then Xor(A[i], Xor(R[i], Z[i])) else Xor(A[i], R[i])
    else
      if w == 1 then Xor(A[i], Xor(R[i], Z[i])) else if w == 2 then Xor(A[i], R[i]) else A[i]
  }

  lemma FreeLane(a: nat, size: nat, next: nat, w: nat, r: nat, i: nat, at: nat)
    requires Word(a) && Word(size) && Word(next) && i < 4 && 1 <= w <= 3 && 1 <= r <= 3 && at == 4 * w + r + i
    ensures Lane(Bytes(FreeTracker(a, size, next)), at) == FreeByte(a, size, next, w, r, i)
  {
    var t := FreeTracker(a, size, next);
    var j := if i + r < 4 then i + r else i + r - 4;
    SealFits(Tracker(a, 0, size, 0, next));
    LanesOfIntact(t);
    LaneBehindWords(Bytes(t), j);
    ByteOfWord(t, j);
    XorZero(WordBytes(a)[j]);
  }

  lemma LiveLane(t: Tracker, w: nat, r: nat, i: nat, n: nat)
    requires ZeroLanes(Bytes(t)) && 1 <= w <= 3 && 1 <= r <= 3 && i < 4 && n + 4 * w + r == 20
    requires t.link == 4 * w + r
    ensures Lane(Bytes(t)[..n], i) == LiveByte(t.base, t.ret, t.size, w, r, i)
  {
    var l := Bytes(t);
    var head := l[..n];
    ByteOfWord(t, i);
    if w == 1 && i + r < 4 {
      LaneCut(l, n, i, 16 + i);
      XorEqual(Lane(head, i), Lane(l, 16 + i));
      LastOfLane(l, 16 + i);
      SmallWord(4 + r);
    } else {
      ShortLane(head, i);
    }
  }

  lemma OddLanes(a: nat, ret: nat, size: nat, next: nat, w: nat, r: nat, i: nat, s: nat)
    requires ret == a + 20 + s && Word(ret) && Word(size) && Word(next)
    requires i < 4 && 1 <= w <= 3 && 1 <= r <= 3 && s == 4 * w + r
    ensures Lane(Bytes(FreeTracker(a, size, next))[s..], i) == FreeByte(a, size, next, w, r, i)
    ensures Lane(Bytes(LiveTracker(a, size, s))[..20 - s], i) == LiveByte(a, ret, size, w, r, i)
  {
    BothFit(a, size, next, s);
    LaneOfTail(Bytes(FreeTracker(a, size, next)), s, i);
    FreeLane(a, size, next, w, r, i, s + i);
    LiveRest(a, ret, size, w, r, i, s);
  }

  lemma LiveRest(a: nat, ret: nat, size: nat, w: nat, r: nat, i: nat, s: nat)
    requires ret == a + 20 + s && Word(ret) && Word(size) && i < 4 && 1 <= w <= 3 && 1 <= r <= 3 && s == 4 * w + r
    ensures Lane(Bytes(LiveTracker(a, size, s))[..20 - s], i) == LiveByte(a, ret, size, w, r, i)
  {
    BothFit(a, size, 0, s);
    LanesOfIntact(LiveTracker(a, size, s));
    LiveLane(LiveTracker(a, size, s), w, r, i, 20 - s);
  }

  lemma SmallWord(n: nat)
    requires n < 256
    ensures WordBytes(n) == [n, 0, 0, 0]
  {
  }

  /**
   The check passes after `w` words and `r` odd bytes of stuffing: four equations between bytes of base, size and list
   head, and of the address that was handed out.
   */
  predicate OddPasses(a: nat, ret: nat, size: nat, next: nat, w: nat, r: nat)
    requires 1 <= w <= 3 && 1 <= r <= 3
  {
    forall i: nat | i < 4 :: FreeByte(a, size, next, w, r, i) == LiveByte(a, ret, size, w, r, i)
  }

  lemma FreedOdd(a: nat, ret: nat, size: nat, next: nat, w: nat, r: nat, s: nat)
    requires ret == a + 20 + s && Word(ret) && Word(size) && Word(next) && 1 <= w <= 3 && 1 <= r <= 3 && s == 4 * w + r
    ensures Intact(ReadAfterFree(a, size, next, s)) <==> OddPasses(a, ret, size, next, w, r)
  {
    BothFit(a, size, next, s);
    OverlaidPasses(FreeTracker(a, size, next), LiveTracker(a, size, s), s);
    var f, l := Bytes(FreeTracker(a, size, next))[s..], Bytes(LiveTracker(a, size, s))[..20 - s];
    forall i: nat | i < 4
      ensures Lane(f, i) == FreeByte(a, size, next, w, r, i) && Lane(l, i) == LiveByte(a, ret, size, w, r, i)
    {
      OddLanes(a, ret, size, next, w, r, i, s);
    }
    SameByBytes(a, ret, size, next, w, r, f, l);
  }

  lemma SameByBytes(a: nat, ret: nat, size: nat, next: nat, w: nat, r: nat, f: seq<nat>, l: seq<nat>)
    requires 1 <= w <= 3 && 1 <= r <= 3
    requires forall i: nat :: i < 4 ==>
               Lane(f, i) == FreeByte(a, size, next, w, r, i) && Lane(l, i) == LiveByte(a, ret, size, w, r, i)
    ensures SameLanes(f, l) <==> OddPasses(a, ret, size, next, w, r)
  {
    if SameLanes(f, l) {
      forall i: nat | i < 4 ensures FreeByte(a, size, next, w, r, i) == LiveByte(a, ret, size, w, r, i) {
        assert Lane(f, i) == Lane(l, i);
      }
    }
  }
}
