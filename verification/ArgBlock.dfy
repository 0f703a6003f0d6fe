/**
 The startup arguments of a process: count, vector and strings at the very end of the topmost page of its stack, with
 pointers the process can follow.
 */
module ArgBlock {

  const PAGE_SIZE := 4096

  function Word(page: seq<nat>, a: nat): nat
    requires a + 4 <= |page|
  {
    page[a] + 256 * page[a + 1] + 65536 * page[a + 2] + 0x100_0000 * page[a + 3]
  }

  /** A string and the zero behind it. */
  ghost predicate StringAt(page: seq<nat>, a: nat, s: seq<nat>) {
    a + |s| < |page| && page[a..a + |s|] == s && page[a + |s|] == 0
  }

  /** A C string has no zero inside. */
  predicate IsString(s: seq<nat>) {
    forall i :: 0 <= i < |s| ==> 0 < s[i] < 256
  }

  /** Where string `i` starts among the strings. */
  function Offset(args: seq<seq<nat>>, i: nat): nat
    requires i <= |args|
  {
    if i == 0 then 0 else Offset(args, i - 1) + |args[i - 1]| + 1
  }

  function BlockSize(args: seq<seq<nat>>): nat {
    8 + 4 * |args| + Offset(args, |args|)
  }

  lemma {:induction false} OffsetMore(args: seq<seq<nat>>, s: seq<nat>, i: nat)
    requires i <= |args|
    ensures Offset(args + [s], i) == Offset(args, i)
  {
    if i > 0 { OffsetMore(args, s, i - 1); }
  }

  /** Count and vector take eight bytes, and each argument a pointer, its bytes and a zero. */
  lemma OneArgumentMore(args: seq<seq<nat>>, s: seq<nat>)
    ensures BlockSize([]) == 8 && BlockSize(args + [s]) == BlockSize(args) + 4 + |s| + 1
  {
    OffsetMore(args, s, |args|);
  }

  lemma {:induction false} OffsetOrder(args: seq<seq<nat>>, i: nat, j: nat)
    requires i < j <= |args|
    ensures Offset(args, i) + |args[i]| + 1 <= Offset(args, j)
    decreases j
  {
    if i + 1 < j { OffsetOrder(args, i, j - 1); }
  }

  ghost predicate OnlyRange(was: seq<nat>, now: seq<nat>, lo: nat, hi: nat) {
    |was| == |now| && forall a :: 0 <= a < |was| && (a < lo || hi <= a) ==> now[a] == was[a]
  }

  /** The byte of the page behind address `v` of a process whose stack tops at `top`. */
  function At(v: int, top: nat): int { v - top + PAGE_SIZE }

  /** What a process finds that follows the pointers from its stack pointer on. */
  ghost predicate Decodes(page: seq<nat>, top: nat, size: nat, args: seq<seq<nat>>) {
    && |page| == PAGE_SIZE && 8 <= size <= PAGE_SIZE && size <= top
    && Word(page, At(top - size, top)) == |args|
    && var argv := Word(page, At(top - size + 4, top));
       forall i: nat :: i < |args| ==> ArgumentAt(page, top, argv, i, args[i])
  }

  ghost predicate ArgumentAt(page: seq<nat>, top: nat, argv: nat, i: nat, s: seq<nat>) {
    && |page| == PAGE_SIZE && 0 <= At(argv + 4 * i, top) && At(argv + 4 * i, top) + 4 <= PAGE_SIZE
    && var p := Word(page, At(argv + 4 * i, top));
       0 <= At(p, top) && StringAt(page, At(p, top), s)
  }

  /** A process reads one argument list only from its stack. */
  lemma DecodesOnce(page: seq<nat>, top: nat, size: nat, p: seq<seq<nat>>, q: seq<seq<nat>>)
    requires Decodes(page, top, size, p) && Decodes(page, top, size, q)
    requires (forall i :: 0 <= i < |p| ==> IsString(p[i])) && forall i :: 0 <= i < |q| ==> IsString(q[i])
    ensures p == q
  {
    var argv := Word(page, At(top - size + 4, top));
    forall i: nat | i < |p| ensures p[i] == q[i] {
      assert ArgumentAt(page, top, argv, i, p[i]) && ArgumentAt(page, top, argv, i, q[i]);
      StringOnce(page, At(Word(page, At(argv + 4 * i, top)), top), p[i], q[i]);
    }
  }

  lemma StringOnce(page: seq<nat>, a: nat, s: seq<nat>, t: seq<nat>)
    requires StringAt(page, a, s) && StringAt(page, a, t) && IsString(s) && IsString(t)
    ensures s == t
  {
    NoLonger(page, a, s, t);
    NoLonger(page, a, t, s);
  }

  lemma NoLonger(page: seq<nat>, a: nat, s: seq<nat>, t: seq<nat>)
    requires StringAt(page, a, s) && StringAt(page, a, t) && IsString(t)
    ensures |t| <= |s|
  {
    assert forall i :: 0 <= i < |t| ==> t[i] == page[a..a + |t|][i];
  }

  // ---------------------------------------------------------------- writing

  method StoreWord(page: array<nat>, a: nat, v: nat)
    requires a + 4 <= page.Length && v < 0x1_0000_0000
    modifies page
    ensures OnlyRange(old(page[..]), page[..], a, a + 4) && Word(page[..], a) == v
  {
    page[a], page[a + 1], page[a + 2], page[a + 3] := v % 256, v / 256 % 256, v / 65536 % 256, v / 0x100_0000;
  }

  method CopyString(page: array<nat>, a: nat, s: seq<nat>)
    requires a + |s| < page.Length
    modifies page
    ensures OnlyRange(old(page[..]), page[..], a, a + |s| + 1) && StringAt(page[..], a, s)
  {
    ghost var was := page[..];
    for i := 0 to |s|
      invariant OnlyRange(was, page[..], a, a + i) && page[a..a + i] == s[..i]
    {
      page[a + i] := s[i];
    }
    page[a + |s|] := 0;
    assert page[..][a..a + |s|] == page[a..a + |s|] == s;
  }

  lemma WordKept(was: seq<nat>, now: seq<nat>, lo: nat, hi: nat, a: nat)
    requires OnlyRange(was, now, lo, hi) && a + 4 <= |was| && (a + 4 <= lo || hi <= a)
    ensures Word(now, a) == Word(was, a)
  {
  }

  lemma StringKept(was: seq<nat>, now: seq<nat>, lo: nat, hi: nat, a: nat, s: seq<nat>)
    requires OnlyRange(was, now, lo, hi) && StringAt(was, a, s) && (a + |s| < lo || hi <= a)
    ensures StringAt(now, a, s)
  {
    assert now[a..a + |s|] == was[a..a + |s|];
  }

  /** Pointer and string of argument `i`, from the start of the block; `argv` is the address of the vector. */
  ghost predicate Placed(page: seq<nat>, start: nat, argv: nat, args: seq<seq<nat>>, i: nat)
  {
    && i < |args| && start + 8 + 4 * i + 4 <= |page|
    && Word(page, start + 8 + 4 * i) == argv + 4 * |args| + Offset(args, i)
    && StringAt(page, start + 8 + 4 * |args| + Offset(args, i), args[i])
  }

  lemma PlacedDecodes(page: seq<nat>, top: nat, start: nat, argv: nat, args: seq<seq<nat>>)
    requires |page| == PAGE_SIZE <= top && start + BlockSize(args) == PAGE_SIZE && argv == top - BlockSize(args) + 8
    requires Word(page, start) == |args| && Word(page, start + 4) == argv
    requires forall j: nat :: j < |args| ==> Placed(page, start, argv, args, j)
    ensures Decodes(page, top, BlockSize(args), args)
  {
    assert At(top - BlockSize(args), top) == start && At(top - BlockSize(args) + 4, top) == start + 4;
    forall i: nat | i < |args| ensures ArgumentAt(page, top, argv, i, args[i]) {
      assert Placed(page, start, argv, args, i);
      assert At(argv + 4 * i, top) == start + 8 + 4 * i;
      assert At(argv + 4 * |args| + Offset(args, i), top) == start + 8 + 4 * |args| + Offset(args, i);
    }
  }

  lemma PlacedKept(p0: seq<nat>, p1: seq<nat>, p2: seq<nat>, start: nat, argv: nat, args: seq<seq<nat>>, i: nat, j: nat)
    requires j < i < |args| && Placed(p0, start, argv, args, j)
    requires OnlyRange(p0, p1, start + 8 + 4 * i, start + 8 + 4 * i + 4)
    requires var to := start + 8 + 4 * |args| + Offset(args, i); OnlyRange(p1, p2, to, to + |args[i]| + 1)
    ensures Placed(p2, start, argv, args, j)
  {
    var at, to := start + 8 + 4 * i, start + 8 + 4 * |args| + Offset(args, i);
    OffsetOrder(args, j, i);
    var a, s := start + 8 + 4 * j, start + 8 + 4 * |args| + Offset(args, j);
    WordKept(p0, p1, at, at + 4, a);
    WordKept(p1, p2, to, to + |args[i]| + 1, a);
    StringKept(p0, p1, at, at + 4, s, args[j]);
    StringKept(p1, p2, to, to + |args[i]| + 1, s, args[j]);
  }

  method PushArgument(page: array<nat>, start: nat, argv: nat, args: seq<seq<nat>>, i: nat, dataSize: nat)
    requires i < |args| && start + BlockSize(args) == page.Length
    requires argv + BlockSize(args) - 8 < 0x1_0000_0000 && dataSize == Offset(args, i)
    requires forall j: nat :: j < i ==> Placed(page[..], start, argv, args, j)
    modifies page
    ensures forall j: nat :: j < i + 1 ==> Placed(page[..], start, argv, args, j)
    ensures OnlyRange(old(page[..]), page[..], start + 8, page.Length)
  {
    OffsetOrder(args, i, |args|);
    ghost var p0 := page[..];
    var at, to := start + 8 + 4 * i, start + 8 + 4 * |args| + dataSize;
    StoreWord(page, at, argv + 4 * |args| + dataSize);
    ghost var p1 := page[..];
    CopyString(page, to, args[i]);
    ghost var p2 := page[..];
    WordKept(p1, p2, to, to + |args[i]| + 1, at);
    forall j: nat | j < i ensures Placed(p2, start, argv, args, j) {
      assert Placed(p0, start, argv, args, j);
      PlacedKept(p0, p1, p2, start, argv, args, i, j);
    }
    assert Placed(p2, start, argv, args, i);
  }

  /** What the process reads is what was pushed; the block ends with the page, and too large a one is refused. */
  method PushProgramInitStackData(page: array<nat>, top: nat, args: seq<seq<nat>>) returns (ok: bool, size: nat)
    requires page.Length == PAGE_SIZE <= top < 0x1_0000_0000
    modifies page
    ensures size == BlockSize(args) && (ok <==> size <= PAGE_SIZE)
    ensures if ok then
              Decodes(page[..], top, size, args) && OnlyRange(old(page[..]), page[..], PAGE_SIZE - size, PAGE_SIZE)
            else page[..] == old(page[..])
  {
    var dataSize := 0;
    for i := 0 to |args|
      invariant dataSize == Offset(args, i)
    {
      dataSize := dataSize + |args[i]| + 1;
    }
    size := 4 + 4 + |args| * 4 + dataSize;
    if size > PAGE_SIZE { return false, size; }
    ok := true;
    var start := PAGE_SIZE - size;
    var argv := top - size + 8;
    ghost var p0 := page[..];
    StoreWord(page, start, |args|);
    ghost var p1 := page[..];
    StoreWord(page, start + 4, argv);
    ghost var p2 := page[..];
    WordKept(p1, p2, start + 4, start + 8, start);
    dataSize := 0;
    for i := 0 to |args|
      invariant dataSize == Offset(args, i) && OnlyRange(p2, page[..], start + 8, PAGE_SIZE)
      invariant forall j: nat :: j < i ==> Placed(page[..], start, argv, args, j)
    {
      PushArgument(page, start, argv, args, i, dataSize);
      dataSize := dataSize + |args[i]| + 1;
    }
    WordKept(p2, page[..], start + 8, PAGE_SIZE, start);
    WordKept(p2, page[..], start + 8, PAGE_SIZE, start + 4);
    PlacedDecodes(page[..], top, start, argv, args);
  }
}
