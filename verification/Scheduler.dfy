/** The process map, the scheduler's list, and the turns of processes and of the threads in them. */
module Scheduler {
  import opened Arithmetic
  import opened ProcessTree

  lemma SomeIn(s: set<int>)
    requires s != {}
    ensures exists x :: x in s
  {
    assert (forall x :: x !in s) ==> s == {};
  }

  // ---------------------------------------------------------------- handing children over, one by one

  lemma HandOverNone(t: Table, to: int)
    ensures HandOver(t, {}, to) == t
  {
    assert Surviving(t, {}) == {};
    if to in t { assert t[to].children + Surviving(t, {}) == t[to].children; }
  }

  lemma HandOverNext(t: Table, moved: set<int>, to: int, c: int)
    requires c !in moved && to !in moved && c != to
    ensures var h := HandOver(t, moved, to);
            HandOver(t, moved + {c}, to) ==
              if c !in h then h
              else if h[c].status == Terminated then WithStatus(h, c, Released)
              else if to in h then h[c := h[c].(parent := to)][to := h[to].(children := h[to].children + {c})]
              else h
  {
    var h, next := HandOver(t, moved, to), HandOver(t, moved + {c}, to);
    if to in t {
      var before, now := Surviving(t, moved), Surviving(t, moved + {c});
      assert now == if c in t && t[c].status != Terminated then before + {c} else before;
      assert t[to].children + now ==
        if c in t && t[c].status != Terminated then t[to].children + before + {c} else t[to].children + before;
    }
  }

  // ---------------------------------------------------------------- the list, and who has left the map

  ghost predicate Distinct(s: seq<int>) {
    forall i, j :: 0 <= i < j < |s| ==> s[i] != s[j]
  }

  /** The list names every process in the map that is no thread, once. */
  ghost predicate Scheduled(t: Table, list: seq<int>) {
    && Distinct(list)
    && (forall p :: p in list <==> p in t && !IsThread(t[p]))
  }

  /** Those that have left the map, in order: each once, and none is back. */
  ghost predicate Past(gone: seq<int>, t: Table, nextPid: int) {
    && Distinct(gone)
    && (forall p :: p in gone ==> 0 <= p < nextPid && p !in t)
  }

  /** From `was` to `t` exactly the additions to the log have left the map. */
  ghost predicate Recorded(was: Table, t: Table, before: seq<int>, gone: seq<int>) {
    && before <= gone && t.Keys <= was.Keys
    && (forall p :: p in gone <==> p in before || (p in was && p !in t))
  }

  lemma RecordedTwice(t0: Table, t1: Table, t2: Table, gone0: seq<int>, gone1: seq<int>, gone2: seq<int>)
    requires Recorded(t0, t1, gone0, gone1) && Recorded(t1, t2, gone1, gone2)
    ensures Recorded(t0, t2, gone0, gone2)
  {
  }

  lemma ListedThere(t: Table, list: seq<int>, i: nat)
    requires Scheduled(t, list) && i < |list|
    ensures list[i] in t && !IsThread(t[list[i]])
  {
    var p := list[i];
    assert p in list;
  }

  lemma ScheduledAdded(t: Table, list: seq<int>, t': Table, pid: int)
    requires Scheduled(t, list) && pid !in t && t'.Keys == t.Keys + {pid} && !IsThread(t'[pid])
    requires forall p :: p in t ==> IsThread(t[p]) == IsThread(t'[p])
    ensures Scheduled(t', list + [pid])
  {
    assert forall p :: p in t'.Keys <==> p in t || p == pid;
  }

  lemma ScheduledRemoved(t: Table, list: seq<int>, i: nat)
    requires Scheduled(t, list) && i < |list|
    ensures Scheduled(t - {list[i]}, Without(list, i)) && list[i] !in Without(list, i)
  {
    var less := Without(list, i);
    forall p ensures p in less <==> p in t && p != list[i] && !IsThread(t[p]) {
      if p in t && p != list[i] && !IsThread(t[p]) {
        var j :| 0 <= j < |list| && list[j] == p;
        assert less[if j < i then j else j - 1] == p;
      }
    }
  }

  function Without(s: seq<int>, i: nat): seq<int>
    requires i < |s|
  {
    s[..i] + s[i + 1..]
  }

  lemma ThreadOf(t: Table, nextPid: int, m: int, i: nat)
    requires Tree(t, nextPid, {}) && m in t && i < |t[m].threads|
    ensures var x := t[m].threads[i]; x in t && t[x].owner == m && IsThread(t[x]) && x != m && 0 <= x < nextPid
  {
    assert Scheduling(t, m) && Threaded(t, {}, t[m].threads[i]);
  }

  /** When threads alone leave the map, the list of processes and the log stay right. */
  lemma ThreadsLeft(t: Table, nextPid: int, p: int, t': Table, list: seq<int>, gone: seq<int>)
    requires Tree(t, nextPid, {}) && p in t && OnlyLeft(t, t', t[p].threads)
    requires Scheduled(t, list) && Past(gone, t, nextPid)
    ensures Scheduled(t', list) && Past(gone + t[p].threads, t', nextPid)
    ensures Recorded(t, t', gone, gone + t[p].threads)
  {
    assert Scheduling(t, p);
    forall x | x in t[p].threads ensures x in t && IsThread(t[x]) && 0 <= x < nextPid {
      var i :| 0 <= i < |t[p].threads| && t[p].threads[i] == x;
      ThreadOf(t, nextPid, p, i);
    }
    assert forall x :: x in t'.Keys ==> x in t.Keys;
  }

  // ---------------------------------------------------------------- ending a process

  function Ending(t: Table, nextPid: int, p: int): Table
    requires Tree(t, nextPid, {}) && Lives(t, p)
  {
    if t[p].parent == NO_PROCESS_ID then RootDestroyed(t, nextPid, p) else Destroyed(t, nextPid, p)
  }

  /** A process may end exactly when it has a parent or no living dependant. */
  ghost predicate MayEnd(t: Table, p: int)
    requires p in t
  {
    t[p].parent != NO_PROCESS_ID || forall c :: !Dependant(t, p, c)
  }

  lemma EndingLeft(t: Table, nextPid: int, p: int)
    requires Tree(t, nextPid, {}) && Lives(t, p)
    ensures var t' := Ending(t, nextPid, p);
            && OnlyLeft(t, t', t[p].threads) && p in t'
            && t'[p].status == if t[p].parent == NO_PROCESS_ID then Released else Terminated
  {
    Marked(t, nextPid, {}, p);
    assert {} + {p} == {p};
    ThreadsEndedLeave(WithStatus(t, p, Terminated), nextPid, p);
    var t2 := ThreadsEnded(WithStatus(t, p, Terminated), nextPid, p);
    HandOverStays(t2, t2[p].children, t2[p].parent, p);
    assert OnlyLeft(t2, Ending(t, nextPid, p), []);
  }

  lemma HandOverStays(t: Table, moving: set<int>, to: int, p: int)
    requires p in t
    ensures OnlyLeft(t, HandOver(t, moving, to), []) && p in HandOver(t, moving, to)
    ensures OnlyLeft(t, WithStatus(HandOver(t, moving, to), p, Released), [])
  {
  }

  lemma EndingWhole(t: Table, nextPid: int, p: int, list: seq<int>, gone: seq<int>)
    requires Tree(t, nextPid, {}) && Lives(t, p) && Scheduled(t, list) && Past(gone, t, nextPid)
    ensures var t', gone' := Ending(t, nextPid, p), gone + t[p].threads;
            && (Tree(t', nextPid, {}) <==> MayEnd(t, p))
            && Scheduled(t', list) && Past(gone', t', nextPid) && Recorded(t, t', gone, gone')
            && p in t' && t'[p].status == if t[p].parent == NO_PROCESS_ID then Released else Terminated
  {
    EndingLeft(t, nextPid, p);
    ThreadsLeft(t, nextPid, p, Ending(t, nextPid, p), list, gone);
    if t[p].parent == NO_PROCESS_ID { RootMayEnd(t, nextPid, p); }
  }

  // ---------------------------------------------------------------- what is released stays so until it leaves

  ghost predicate StaysReleased(t: Table, t': Table, c: int) {
    c in t && t[c].status == Released && !IsThread(t[c]) ==>
      c in t' && t'[c].status == Released && !IsThread(t'[c])
  }

  lemma {:induction false} ThreadsEndedStay(t: Table, nextPid: int, m: int, c: int)
    requires Tree(t, nextPid, {m}) && m in t
    ensures StaysReleased(t, ThreadsEnded(t, nextPid, m), c)
    decreases |t[m].threads|
  {
    if t[m].threads != [] {
      FirstThreadKeeps(t, nextPid, m);
      FirstThreadLeaves(t, nextPid, m);
      assert Scheduling(t, m) && Threaded(t, {m}, t[m].threads[0]);
      assert StaysReleased(t, FirstThreadEnded(t, m), c);
      ThreadsEndedStay(FirstThreadEnded(t, m), nextPid, m, c);
    }
  }

  lemma EndingStays(t: Table, nextPid: int, p: int, c: int)
    requires Tree(t, nextPid, {}) && Lives(t, p)
    ensures StaysReleased(t, Ending(t, nextPid, p), c)
  {
    Marked(t, nextPid, {}, p);
    assert {} + {p} == {p};
    ThreadsEndedStay(WithStatus(t, p, Terminated), nextPid, p, c);
  }

  /** Whoever else lives, and is no thread of the process that ends, goes on. */
  lemma EndingSparesLiving(t: Table, nextPid: int, p: int, c: int)
    requires Tree(t, nextPid, {}) && Lives(t, p) && Lives(t, c) && c != p && t[c].owner != p
    ensures LivesOn(t, Ending(t, nextPid, p), c)
  {
    var t1 := WithStatus(t, p, Terminated);
    Marked(t, nextPid, {}, p);
    assert {} + {p} == {p};
    assert LivesOn(t, t1, c);
    ThreadsSpareLiving(t1, nextPid, p, c);
    assert LivesOn(t1, ThreadsEnded(t1, nextPid, p), c);
  }

  /** One that has ended and does not hang below it stays as it is. */
  lemma EndingSpares(t: Table, nextPid: int, p: int, c: int)
    requires Tree(t, nextPid, {}) && Lives(t, p) && Unrelated(t, p, c) && t[c].status != Released
    ensures SameStanding(t, Ending(t, nextPid, p), c)
  {
    var t1 := WithStatus(t, p, Terminated);
    Marked(t, nextPid, {}, p);
    assert {} + {p} == {p};
    ThreadsSpare(t1, nextPid, p, c);
    var t2 := ThreadsEnded(t1, nextPid, p);
    assert Rooted(t2, {p}, c) && Listing(t2, nextPid, {p}, p);
  }

  // ---------------------------------------------------------------- whose turn it is in a process

  function WithNext(t: Table, m: int, next: nat): Table
    requires m in t
  {
    t[m := t[m].(next := next)]
  }

  lemma NextKeeps(t: Table, nextPid: int, m: int, next: nat, list: seq<int>)
    requires Tree(t, nextPid, {}) && m in t && next <= |t[m].threads| && Scheduled(t, list)
    ensures Tree(WithNext(t, m, next), nextPid, {}) && Scheduled(WithNext(t, m, next), list)
  {
    var t' := WithNext(t, m, next);
    forall c ensures Rooted(t', {}, c) { assert Rooted(t, {}, c); }
    forall c ensures Threaded(t', {}, c) { assert Threaded(t, {}, c); }
    forall k ensures Scheduling(t', k) { assert Scheduling(t, k); }
    forall k ensures Listing(t', nextPid, {}, k) { assert Listing(t, nextPid, {}, k); }
  }

  /** The threads of `m` in the order in which their turns come. */
  function Round(t: Table, m: int): (r: seq<int>)
    requires m in t && t[m].next <= |t[m].threads|
    ensures |r| == |t[m].threads|
  {
    t[m].threads[t[m].next..] + t[m].threads[..t[m].next]
  }

  /** The first `r` threads in turn order are gone from list and map; scheduling stands where they were. */
  function Culled(t: Table, m: int, r: nat): Table
    requires m in t && t[m].next <= |t[m].threads| && r <= |t[m].threads|
  {
    (t - Elements(Round(t, m)[..r]))[m := CulledProc(t[m], r)]
  }

  function CulledProc(p: Proc, r: nat): Proc
    requires p.next <= |p.threads| && r <= |p.threads|
  {
    var tail := |p.threads| - p.next;
    if r <= tail then p.(threads := p.threads[..p.next] + p.threads[p.next + r..])
    else p.(threads := p.threads[r - tail..p.next], next := 0)
  }

  function Elements(s: seq<int>): set<int> { set x | x in s }

  ghost predicate ReleasedThreads(t: Table, xs: seq<int>) {
    forall x :: x in xs ==> x in t && t[x].status == Released
  }

  /**
   `x` is chosen among the threads: the released ones whose turn would come before it leave list and map, and it goes to
   the end of the round; with none left it is the process itself.
   */
  ghost predicate Chosen(t: Table, m: int, r: nat, x: int, t': Table)
    requires m in t && t[m].next <= |t[m].threads|
  {
    && r <= |t[m].threads| && ReleasedThreads(t, Round(t, m)[..r])
    && if r < |t[m].threads| then
         var c := Culled(t, m, r);
         && x == Round(t, m)[r] && x in t && t[x].status != Released
         && t' == WithNext(c, m, if c[m].next == |c[m].threads| then 1 else c[m].next + 1)
       else x == m && t' == Culled(t, m, r)
  }

  /** The next of a process and its threads to run: itself when it has ended or its threads have had their turns. */
  ghost predicate Picked(t: Table, m: int, r: nat, x: int, t': Table)
    requires m in t && t[m].next <= |t[m].threads|
  {
    if Ended(t[m].status) then x == m && t' == t
    else if t[m].next == |t[m].threads| then x == m && t' == WithNext(t, m, 0)
    else Chosen(t, m, r, x, t')
  }

  /** The one chosen goes to the end of the round, behind all that come after it. */
  lemma ChosenGoesLast(t: Table, nextPid: int, m: int, r: nat, x: int, t': Table)
    requires Tree(t, nextPid, {}) && m in t && t[m].next <= |t[m].threads|
    requires Chosen(t, m, r, x, t') && r < |t[m].threads|
    ensures m in t' && t'[m].next <= |t'[m].threads| && Round(t', m) == Round(t, m)[r + 1..] + [x]
  {
    var p, tail := t[m], |t[m].threads| - t[m].next;
    if r < tail {
      assert Round(t, m)[r + 1..] == p.threads[p.next + r + 1..] + p.threads[..p.next];
    } else {
      assert Round(t, m)[r + 1..] == p.threads[r - tail + 1..p.next];
    }
  }

  lemma RoundDistinct(t: Table, m: int)
    requires m in t && Scheduling(t, m)
    ensures Distinct(Round(t, m)) && forall x :: x in Round(t, m) <==> x in t[m].threads
  {
    var p := t[m];
    assert p.threads == p.threads[..p.next] + p.threads[p.next..];
  }

  lemma CulledNone(t: Table, m: int)
    requires m in t && t[m].next <= |t[m].threads|
    ensures Culled(t, m, 0) == t
  {
    assert Elements(Round(t, m)[..0]) == {};
    assert t[m].threads[..t[m].next] + t[m].threads[t[m].next..] == t[m].threads;
  }

  lemma CulledThreads(t: Table, nextPid: int, m: int, r: nat)
    requires Tree(t, nextPid, {}) && m in t && t[m].next <= |t[m].threads| && r < |t[m].threads|
    ensures m in Culled(t, m, r) && var p := Culled(t, m, r)[m];
            && |p.threads| == |t[m].threads| - r && p.next <= |p.threads| && p.status == t[m].status
            && var current := if p.next == |p.threads| then 0 else p.next;
               && p.threads[current] == Round(t, m)[r]
               && Dropped(Culled(t, m, r), m, current, current) == Culled(t, m, r + 1)
  {
    var l, c := Round(t, m), Culled(t, m, r);
    RoundApart(t, nextPid, m);
    assert l[..r + 1] == l[..r] + [l[r]];
    assert Elements(l[..r + 1]) == Elements(l[..r]) + {l[r]};
    CulledOne(t[m], r);
    var current := if c[m].next == |c[m].threads| then 0 else c[m].next;
    var d, e := Dropped(c, m, current, current), Culled(t, m, r + 1);
    assert c[m].threads[current] == l[r];
    assert d[m] == e[m];
    DropAfter(t, Elements(l[..r]), l[r], m, c[m], d[m]);
  }

  lemma DropAfter(t: Table, gone: set<int>, x: int, m: int, p: Proc, q: Proc)
    requires x != m
    ensures ((t - gone)[m := p] - {x})[m := q] == (t - (gone + {x}))[m := q]
  {
  }

  /** Dropping the thread at the place where scheduling stands, once the first `r` in turn order are gone. */
  lemma CulledOne(p: Proc, r: nat)
    requires p.next <= |p.threads| && r < |p.threads|
    ensures var q := CulledProc(p, r);
            && |q.threads| == |p.threads| - r && q.next <= |q.threads|
            && var current := if q.next == |q.threads| then 0 else q.next;
               && q.threads[current] == (p.threads[p.next..] + p.threads[..p.next])[r]
               && q.(threads := q.threads[..current] + q.threads[current + 1..], next := current) ==
                  CulledProc(p, r + 1)
  {
    var next, tail := p.next, |p.threads| - p.next;
    var turns := p.threads[next..] + p.threads[..next];
    if r < tail {
      var left := p.threads[..next] + p.threads[next + r..];
      assert left[next] == p.threads[next + r] == turns[r];
      assert left[..next] + left[next + 1..] == p.threads[..next] + p.threads[next + r + 1..];
    } else {
      if r == tail { assert p.threads[..next] + p.threads[next + r..] == p.threads[0..next]; }
      var left := p.threads[r - tail..next];
      assert left[0] == p.threads[r - tail] == turns[r];
      assert left[..0] + left[1..] == p.threads[r + 1 - tail..next];
    }
  }

  /** A process is none of its own threads. */
  lemma RoundApart(t: Table, nextPid: int, m: int)
    requires Tree(t, nextPid, {}) && m in t && t[m].next <= |t[m].threads|
    ensures forall i :: 0 <= i < |Round(t, m)| ==> Round(t, m)[i] != m
  {
    assert Scheduling(t, m);
    RoundDistinct(t, m);
    forall i | 0 <= i < |Round(t, m)| ensures Round(t, m)[i] != m {
      assert Round(t, m)[i] in Round(t, m);
      var j :| 0 <= j < |t[m].threads| && t[m].threads[j] == Round(t, m)[i];
      ThreadOf(t, nextPid, m, j);
    }
  }

  /** The search for a thread has passed `r` released ones. */
  ghost predicate Passed(was: Table, m: int, r: nat, t: Table) {
    && m in was && was[m].next <= |was[m].threads| && r <= |was[m].threads|
    && m in t && t == Culled(was, m, r) && |t[m].threads| == |was[m].threads| - r && t[m].next <= |t[m].threads|
    && ReleasedThreads(was, Round(was, m)[..r])
  }

  ghost predicate Passing(was: Table, left: seq<int>, m: int, r: nat, nextPid: int, s: State) {
    && Tree(was, nextPid, {}) && s.nextPid == nextPid
    && Passed(was, m, r, s.procs) && Whole(s) && Recorded(was, s.procs, left, s.gone)
  }

  lemma PassedNone(t: Table, nextPid: int, m: int)
    requires Tree(t, nextPid, {}) && m in t
    ensures Passed(t, m, 0, t)
  {
    assert Scheduling(t, m);
    CulledNone(t, m);
  }

  /** The place where scheduling stands, or the front again at the end. */
  function Current(p: Proc): nat {
    if p.next == |p.threads| then 0 else p.next
  }

  lemma PassOne(was: Table, nextPid: int, m: int, r: nat, t: Table)
    requires Tree(was, nextPid, {}) && Passed(was, m, r, t) && r < |was[m].threads|
    ensures Current(t[m]) < |t[m].threads|
    ensures var x := t[m].threads[Current(t[m])];
            && x == Round(was, m)[r] && x in t && x in was && t[x] == was[x]
            && (t[x].status == Released ==> Passed(was, m, r + 1, Dropped(t, m, Current(t[m]), Current(t[m]))))
  {
    CulledThreads(was, nextPid, m, r);
    RoundThere(was, nextPid, m, r);
    var l, x := Round(was, m), t[m].threads[Current(t[m])];
    assert l[..r + 1] == l[..r] + [x];
    if t[x].status == Released {
      var t' := Dropped(t, m, Current(t[m]), Current(t[m]));
      assert ReleasedThreads(was, l[..r + 1]);
    }
  }

  /** The search ends at a thread that is not released. */
  lemma PassedChosen(was: Table, m: int, r: nat, t: Table)
    requires Passed(was, m, r, t) && r < |was[m].threads|
    requires var x := Round(was, m)[r]; x in was && was[x].status != Released
    ensures Chosen(was, m, r, Round(was, m)[r], WithNext(t, m, Current(t[m]) + 1)) == true
  {
  }

  lemma RoundThere(t: Table, nextPid: int, m: int, r: nat)
    requires Tree(t, nextPid, {}) && m in t && t[m].next <= |t[m].threads| && r < |t[m].threads|
    ensures var x := Round(t, m)[r];
            x in t && t[x].owner == m && x != m && x !in Elements(Round(t, m)[..r])
  {
    RoundDistinct(t, m);
    assert Scheduling(t, m);
    var x := Round(t, m)[r];
    assert x in Round(t, m);
    var i :| 0 <= i < |t[m].threads| && t[m].threads[i] == x;
    ThreadOf(t, nextPid, m, i);
  }

  ghost predicate NoneReleased(t: Table, m: int)
    requires m in t
  {
    forall i :: 0 <= i < |t[m].threads| ==> t[m].threads[i] in t && t[t[m].threads[i]].status != Released
  }

  // ---------------------------------------------------------------- waiting and running

  function Waits(t: Table, x: int, child: int): Table
    requires x in t
  {
    t[x := t[x].(waitFor := child, status := WaitChild)]
  }

  lemma WaitsKeeps(t: Table, nextPid: int, x: int, child: int, list: seq<int>)
    requires Tree(t, nextPid, {}) && Lives(t, x) && Scheduled(t, list)
    ensures Tree(Waits(t, x, child), nextPid, {}) && Scheduled(Waits(t, x, child), list)
  {
    var t' := Waits(t, x, child);
    forall c ensures Rooted(t', {}, c) { assert Rooted(t, {}, c); }
    forall c ensures Threaded(t', {}, c) { assert Threaded(t, {}, c); }
    forall k ensures Scheduling(t', k) { assert Scheduling(t, k); }
    forall k ensures Listing(t', nextPid, {}, k) { assert Listing(t, nextPid, {}, k); }
  }

  /** `ready` says that a wait other than on a child is over. */
  predicate Runs(t: Table, x: int, ready: bool)
    requires x in t
  {
    match t[x].status
    case Run => true
    case Waiting => ready
    case WaitChild => !Held(t, x)
    case _ => false
  }

  /** The table once it is decided whether `x` runs; an ended child of the kernel's own process is released. */
  function Awakened(t: Table, x: int, ready: bool, kernelPid: int): Table
    requires x in t
  {
    match t[x].status
    case WaitChild => if Held(t, x) then t else Woken(t, x)
    case Waiting => if ready then WithStatus(t, x, Run) else t
    case Terminated => if t[x].parent == kernelPid then WithStatus(t, x, Released) else t
    case _ => t
  }

  lemma AwakenedKeeps(t: Table, nextPid: int, x: int, ready: bool, kernelPid: int, list: seq<int>)
    requires Tree(t, nextPid, {}) && x in t && Scheduled(t, list)
    ensures var t' := Awakened(t, x, ready, kernelPid);
            && Tree(t', nextPid, {}) && Scheduled(t', list) && t'.Keys == t.Keys
            && t'[x].parent == t[x].parent && t'[x].owner == t[x].owner
            && (Runs(t, x, ready) ==> t'[x].status == Run)
  {
    match t[x].status {
      case WaitChild => if !Held(t, x) { WokenKeeps(t, nextPid, x); }
      case Waiting => if ready { WokenAwake(t, nextPid, x, Run); }
      case Terminated => ReleasedKeeps(t, nextPid, {}, x);
      case _ =>
    }
  }

  /**
   Case by case what a turn finds and does: who is ready runs; a wait on a child is over when none is awaited, or the
   child is gone, has another parent, or has ended, and the one that has ended is then released and listed no longer;
   nothing happens to the others but that an ended child of the kernel's own process is released.
   */
  ghost predicate TurnCases(t: Table, x: int, ready: bool, kernelPid: int, ran: bool, t': Table)
    requires x in t
  {
    match t[x].status
    case Run => ran && t' == t
    case Waiting => if ready then ran && t' == t[x := t[x].(status := Run)] else !ran && t' == t
    case Terminated => !ran && t' == if t[x].parent == kernelPid then t[x := t[x].(status := Released)] else t
    case Released => !ran && t' == t
    case WaitChild =>
      var c := t[x].waitFor;
      && (ran <==> c < 0 || c !in t || t[c].parent != x || t[c].status == Terminated)
      && t'.Keys == t.Keys
      && t'[x] == (if !ran then t[x]
                   else t[x].(status := Run, waitFor := NO_PROCESS_ID,
                              children := if c < 0 then t[x].children else t[x].children - {c}))
      && forall y :: y in t && y != x ==>
           t'[y] == if y == c >= 0 && t[y].parent == x && t[y].status == Terminated then t[y].(status := Released)
                    else t[y]
  }

  /** Who runs, case by case. */
  ghost predicate RunsWhen(t: Table, x: int, ready: bool, ran: bool)
    requires x in t
  {
    match t[x].status
    case Run => ran
    case Waiting => ran == ready
    case WaitChild =>
      var c := t[x].waitFor; ran <==> c < 0 || c !in t || t[c].parent != x || t[c].status == Terminated
    case _ => !ran
  }

  lemma CasesHold(t: Table, x: int, ready: bool, kernelPid: int)
    requires x in t
    ensures RunsWhen(t, x, ready, Runs(t, x, ready)) == true
    ensures TurnCases(t, x, ready, kernelPid, Runs(t, x, ready), Awakened(t, x, ready, kernelPid)) == true
  {
  }

  /** What a turn of `x` makes of the table: awake it may run, and running it may end. */
  ghost predicate Switched(t: Table, nextPid: int, x: int, turn: Chance, kernelPid: int, ran: bool, t': Table)
    requires x in t
  {
    var t1 := Awakened(t, x, turn.ready, kernelPid);
    && ran == Runs(t, x, turn.ready)
    && if ran && turn.exits then Tree(t1, nextPid, {}) && Lives(t1, x) && t' == Ending(t1, nextPid, x) else t' == t1
  }

  lemma SwitchedStays(t: Table, nextPid: int, x: int, turn: Chance, kernelPid: int, ran: bool, t': Table, c: int)
    requires x in t && Switched(t, nextPid, x, turn, kernelPid, ran, t')
    ensures StaysReleased(t, t', c)
  {
    var t1 := Awakened(t, x, turn.ready, kernelPid);
    assert StaysReleased(t, t1, c);
    if ran && turn.exits { EndingStays(t1, nextPid, x, c); }
  }

  /** Whether a wait is over by a turn, and whether the process ends when it runs. */
  datatype Chance = Chance(ready: bool, exits: bool)

  // ---------------------------------------------------------------- a round of turns

  lemma NextPlace(a: nat, n: nat)
    requires n > 0
    ensures (a + 1) % n == if a % n == n - 1 then 0 else a % n + 1
  {
    var q := a / n;
    assert a == q * n + a % n;
    if a % n == n - 1 {
      assert a + 1 == (q + 1) * n;
      RemainderIs(q + 1, 0, n);
    } else {
      RemainderIs(q, a % n + 1, n);
    }
  }

  /** The place after `i` turns in a round of `k` threads and their process. */
  function Place(next: nat, i: nat, k: nat): (p: nat)
    ensures p <= k
  {
    (next + i) % (k + 1)
  }

  /** Those who have turns in `m`: its threads and itself. */
  function Party(t: Table, m: int): seq<int>
    requires m in t
  {
    t[m].threads + [m]
  }

  lemma HeadTaken(s: seq<int>, r: nat)
    requires s != [] && r <= |s|
    ensures r > 0 ==> s[0] in s[..r]
  {
    if r > 0 { assert s[..r][0] == s[0]; }
  }

  /** A turn of a process at place `p` goes to the thread there, or to itself at the end, and moves on. */
  lemma TurnAt(t: Table, m: int, p: nat, r: nat, x: int, t': Table)
    requires m in t && !Ended(t[m].status) && NoneReleased(t, m) && p <= |t[m].threads|
    requires Picked(WithNext(t, m, p), m, r, x, t')
    ensures x == Party(t, m)[p]
    ensures t' == WithNext(t, m, if p == |t[m].threads| then 0 else p + 1)
  {
    var s := WithNext(t, m, p);
    if p < |t[m].threads| {
      assert Round(s, m)[0] == t[m].threads[p];
      HeadTaken(Round(s, m), r);
      assert Elements(Round(s, m)[..0]) == {};
      assert Culled(s, m, 0)[m].threads == t[m].threads;
    }
  }

  lemma PlaceIs(next: nat, i: nat, k: nat)
    requires next <= k && i <= k
    ensures Place(next, i, k) == if next + i <= k then next + i else next + i - k - 1
  {
    if next + i <= k { RemainderIs(0, next + i, k + 1); } else { RemainderIs(1, next + i - k - 1, k + 1); }
  }

  lemma PlaceFrom(next: nat, i: nat, j: nat, k: nat)
    ensures Place(next, i + j, k) == Place(Place(next, i, k), j, k)
  {
    var n := k + 1;
    var q, p := (next + i) / n, (next + i) % n;
    assert next + i == q * n + p;
    var q1 := (p + j) / n;
    assert p + j == q1 * n + (p + j) % n;
    assert next + (i + j) == (q + q1) * n + (p + j) % n;
    RemainderIs(q + q1, (p + j) % n, n);
  }

  /** In any `k + 1` turns in a row each of the `k` threads and the process itself has exactly one. */
  lemma OneTurnEach(t: Table, m: int, next: nat, window: seq<int>)
    requires m in t && next <= |t[m].threads| && |window| == |t[m].threads| + 1
    requires forall i :: 0 <= i < |window| ==> window[i] == Party(t, m)[Place(next, i, |t[m].threads|)]
    ensures multiset(window) == multiset(Party(t, m))
  {
    var all := Party(t, m);
    forall i | 0 <= i < |window| ensures window[i] == (all[next..] + all[..next])[i] {
      PlaceIs(next, i, |t[m].threads|);
    }
    assert window == all[next..] + all[..next];
    assert all == all[..next] + all[next..];
  }

  /** Nobody is twice among those who have turns. */
  lemma PartyDistinct(t: Table, nextPid: int, m: int)
    requires Tree(t, nextPid, {}) && m in t
    ensures Distinct(Party(t, m))
  {
    assert Scheduling(t, m);
    forall i | 0 <= i < |t[m].threads| ensures t[m].threads[i] != m { ThreadOf(t, nextPid, m, i); }
  }

  // ---------------------------------------------------------------- the process manager

  datatype State = State(procs: Table, scheduler: seq<int>, nextPid: int, gone: seq<int>)

  ghost predicate Whole(s: State) {
    && Tree(s.procs, s.nextPid, {}) && s.nextPid >= 0
    && Scheduled(s.procs, s.scheduler) && Past(s.gone, s.procs, s.nextPid)
  }

  /** What a turn went through: how many released threads were passed, and the table before and after the switch. */
  datatype Via = Via(passed: nat, chosen: Table, switched: Table)

  /** The turn of the process at place `i` of the list: one is chosen, it may run, and if it is released it is gone. */
  ghost predicate Turned(s: State, i: nat, turn: Chance, kernelPid: int, x: int, ran: bool, via: Via, s': State) {
    && i < |s.scheduler| && s.scheduler[i] in s.procs
    && var m := s.scheduler[i];
    && s.procs[m].next <= |s.procs[m].threads|
    && Picked(s.procs, m, via.passed, x, via.chosen)
    && x in via.chosen && x in via.switched
    && Switched(via.chosen, s.nextPid, x, turn, kernelPid, ran, via.switched)
    && s'.nextPid == s.nextPid && Recorded(s.procs, s'.procs, s.gone, s'.gone)
    && if !IsThread(via.switched[x]) && via.switched[x].status == Released then
         x == m && s'.procs == via.switched - {m} && s'.scheduler == Without(s.scheduler, i)
       else
         s'.procs == via.switched && s'.scheduler == s.scheduler
  }

  /** The process a process or thread belongs to. */
  function MainOf(t: Table, p: int): int
    requires p in t
  {
    if IsThread(t[p]) then t[p].owner else p
  }

  lemma DropLeaves(s: State, m: int, i: nat)
    requires Whole(s) && m in s.procs && i < |s.procs[m].threads|
    requires s.procs[m].threads[i] in s.procs && s.procs[s.procs[m].threads[i]].status == Released
    ensures var t', gone' := Dropped(s.procs, m, i, i), s.gone + [s.procs[m].threads[i]];
            Whole(s.(procs := t', gone := gone')) && Recorded(s.procs, t', s.gone, gone')
  {
    var x := s.procs[m].threads[i];
    ThreadOf(s.procs, s.nextPid, m, i);
    DroppedKeeps(s.procs, s.nextPid, {}, m, i, i);
    var t' := Dropped(s.procs, m, i, i);
    assert forall p :: p in t'.Keys ==> p in s.procs.Keys;
  }

  lemma LeavesTable(s: State, i: nat)
    requires Whole(s) && i < |s.scheduler| && s.scheduler[i] in s.procs
    requires s.procs[s.scheduler[i]].status == Released && !IsThread(s.procs[s.scheduler[i]])
    ensures var x := s.scheduler[i];
            var s' := State(s.procs - {x}, Without(s.scheduler, i), s.nextPid, s.gone + [x]);
            Whole(s') && Recorded(s.procs, s'.procs, s.gone, s'.gone)
  {
    RemovedKeeps(s.procs, s.nextPid, {}, s.scheduler[i]);
    ScheduledRemoved(s.procs, s.scheduler, i);
  }

  /** Whoever is chosen is there, the process itself or a thread of it. */
  lemma ChosenThere(t: Table, nextPid: int, m: int, r: nat, x: int, t': Table)
    requires Tree(t, nextPid, {}) && m in t && t[m].next <= |t[m].threads| && Chosen(t, m, r, x, t')
    ensures m in t' && x in t' && (x != m ==> t'[x].owner == m)
  {
    if r < |t[m].threads| { RoundThere(t, nextPid, m, r); }
    forall y | y in Elements(Round(t, m)[..r]) ensures y != m {
      var j :| 0 <= j < r && Round(t, m)[j] == y;
      RoundThere(t, nextPid, m, j);
    }
  }

  /** Whoever is chosen in the turn of a process that has a parent may end. */
  lemma TurnMayEnd(s: State, m: int, x: int, ready: bool, kernelPid: int)
    requires Whole(s) && m in s.procs && x in s.procs && s.procs[m].parent != NO_PROCESS_ID
    requires x != m ==> s.procs[x].owner == m
    ensures MayEnd(Awakened(s.procs, x, ready, kernelPid), x)
  {
    assert Threaded(s.procs, {}, x);
    AwakenedKeeps(s.procs, s.nextPid, x, ready, kernelPid, s.scheduler);
  }

  /** With a full map the new thread is listed and not there. */
  lemma ThreadMissing(t: Table, pid: int, m: int, t': Table)
    requires m in t && pid !in t && t' == t[m := WithThread(t, pid, m)[m]] && pid != m
    ensures t' == WithThread(t, pid, m) - {pid} && !Tree(t', pid + 1, {})
  {
    assert t'[m].threads[|t[m].threads|] == pid && !Scheduling(t', m);
  }

  class ProcessManager {
    const kernelProcessID: int
    var procs: Table
    var scheduler: seq<int>
    var nextPid: int
    /** Those that were in the map and have left it, in order. */
    ghost var gone: seq<int>

    ghost function Now(): State reads this {
      State(procs, scheduler, nextPid, gone)
    }

    ghost predicate Valid() reads this {
      Whole(Now())
    }

    constructor (kernelPid: int)
      ensures Valid() && Now() == State(map[], [], 0, []) && kernelProcessID == kernelPid
    {
      kernelProcessID, procs, scheduler, nextPid, gone := kernelPid, map[], [], 0, [];
    }

    /** The new process, or none when the map is full; its number is used up and its parent lists it either way. */
    method Create(parent: int) returns (pid: int)
      requires Valid() && (parent == NO_PROCESS_ID || Lives(procs, parent))
      modifies this
      ensures Valid() && gone == old(gone) && nextPid == old(nextPid) + 1
      ensures if |old(procs)| + 1 > MAX_NO_PROCESS then
                && pid == NO_PROCESS_ID && scheduler == old(scheduler)
                && procs == WithChild(old(procs), old(nextPid), parent)
              else
                && pid == old(nextPid) && scheduler == old(scheduler) + [pid]
                && procs == WithProcess(old(procs), pid, parent)
                && procs[pid] == Proc(NO_PROCESS_ID, Run, parent, {}, NO_PROCESS_ID, [], 0)
    {
      pid := nextPid;
      nextPid := nextPid + 1;
      if parent in procs { procs := procs[parent := procs[parent].(children := procs[parent].children + {pid})]; }
      if |procs| + 1 > MAX_NO_PROCESS {
        ChildListed(old(procs), pid, parent);
        return NO_PROCESS_ID;
      }
      ProcessAdded(old(procs), pid, parent);
      procs := procs[pid := Newcomer(NO_PROCESS_ID, parent)];
      ScheduledAdded(old(procs), scheduler, procs, pid);
      scheduler := scheduler + [pid];
    }

    /**
     A thread of the process `caller` is, or is a thread of.  With a full map it is scheduled all the same, and the list
     of threads names one that is not there.
     */
    method CreateThreadTask(caller: int) returns (pid: int)
      requires Valid() && Lives(procs, caller)
      modifies `procs, `nextPid
      ensures nextPid == old(nextPid) + 1
      ensures var m, new' := MainOf(old(procs), caller), old(nextPid);
              && m in old(procs)
              && if |old(procs)| < MAX_NO_PROCESS then pid == new' && procs == WithThread(old(procs), new', m)
                 else pid == NO_PROCESS_ID && procs == WithThread(old(procs), new', m) - {new'}
      ensures var m, new' := MainOf(old(procs), caller), old(nextPid);
              && m in procs && procs[m].threads == old(procs)[m].threads + [new']
              && (pid == new' ==> procs[pid] == Proc(m, Run, m, {}, NO_PROCESS_ID, [], 0))
      ensures Valid() <==> |old(procs)| < MAX_NO_PROCESS
    {
      assert Threaded(procs, {}, caller) && Rooted(procs, {}, caller);
      var m := MainOf(procs, caller);
      pid := nextPid;
      nextPid := nextPid + 1;
      ThreadAdded(procs, pid, m);
      var p := procs[m];
      var next := if p.next == |p.threads| then p.next + 1 else p.next;
      procs := procs[m := p.(threads := p.threads + [pid], next := next)];
      if |procs| + 1 > MAX_NO_PROCESS {
        ThreadMissing(old(procs), pid, m, procs);
        return NO_PROCESS_ID;
      }
      procs := procs[pid := Newcomer(m, m)];
    }

    method HandOverChildren(p: int, to: int)
      requires p in procs && to !in procs[p].children
      modifies `procs
      ensures procs == HandOver(old(procs), old(procs[p].children), to)
    {
      var todo := procs[p].children;
      ghost var all, moved, was := todo, {}, procs;
      HandOverNone(was, to);
      while todo != {}
        invariant todo <= all && moved == all - todo && procs == HandOver(was, moved, to)
        decreases |todo|
      {
        SomeIn(todo);
        var c :| c in todo;
        HandOverNext(was, moved, to, c);
        if c in procs {
          if procs[c].status == Terminated {
            procs := procs[c := procs[c].(status := Released)];
          } else if to in procs {
            procs := procs[c := procs[c].(parent := to)];
            procs := procs[to := procs[to].(children := procs[to].children + {c})];
          }
        }
        todo, moved := todo - {c}, moved + {c};
      }
      assert moved == all;
    }

    /** The first thread of a process that is ending. */
    method EndFirstThread(m: int)
      requires Tree(procs, nextPid, {m}) && m in procs && procs[m].threads != []
      modifies `procs
      ensures old(procs)[m].threads[0] in old(procs) && old(procs)[m].threads[0] != m
      ensures procs == FirstThreadEnded(old(procs), m)
    {
      var x := procs[m].threads[0];
      assert Scheduling(procs, m) && Threaded(procs, {m}, x) && Listing(procs, nextPid, {m}, x);
      if !Ended(procs[x].status) {
        procs := WithStatus(procs, x, Terminated);
        HandOverChildren(x, procs[x].parent);
      }
      procs := WithStatus(procs, x, Released);
      procs := Dropped(procs, m, 0, 0);
    }

    method DestroyThreads(m: int)
      requires Tree(procs, nextPid, {m}) && m in procs
      modifies `procs
      ensures procs == ThreadsEnded(old(procs), nextPid, m)
    {
      ghost var was := procs;
      while procs[m].threads != []
        invariant Tree(procs, nextPid, {m}) && m in procs
        invariant ThreadsEnded(procs, nextPid, m) == ThreadsEnded(was, nextPid, m)
        decreases |procs[m].threads|
      {
        FirstThreadKeeps(procs, nextPid, m);
        FirstThreadLeaves(procs, nextPid, m);
        EndFirstThread(m);
      }
    }

    method DestroyProcess(p: int)
      requires Tree(procs, nextPid, {}) && Lives(procs, p)
      modifies `procs
      ensures procs == Ending(old(procs), nextPid, p)
    {
      Marked(procs, nextPid, {}, p);
      assert {} + {p} == {p} && {p} - {p} == {};
      procs := WithStatus(procs, p, Terminated);
      DestroyThreads(p);
      assert Rooted(procs, {p}, p) && Listing(procs, nextPid, {p}, p);
      HandOverChildren(p, procs[p].parent);
      if procs[p].parent == NO_PROCESS_ID { procs := WithStatus(procs, p, Released); }
    }

    /** A process ends: its threads go, its children are released or handed to its parent. */
    method Destroy(p: int)
      requires Valid() && Lives(procs, p)
      modifies `procs, `gone
      ensures procs == Ending(old(procs), nextPid, p) && gone == old(gone) + old(procs)[p].threads
      ensures Recorded(old(procs), procs, old(gone), gone)
      ensures Valid() <==> MayEnd(old(procs), p)
    {
      EndingWhole(procs, nextPid, p, scheduler, gone);
      gone := gone + procs[p].threads;
      DestroyProcess(p);
    }

    /** Nothing happens to a process that has ended or is not there. */
    method Kill(p: int)
      requires Valid()
      modifies `procs, `gone
      ensures Valid() <==> (Lives(old(procs), p) ==> MayEnd(old(procs), p))
      ensures Recorded(old(procs), procs, old(gone), gone)
      ensures if Lives(old(procs), p) then
                procs == Ending(old(procs), nextPid, p) && gone == old(gone) + old(procs)[p].threads
              else procs == old(procs) && gone == old(gone)
    {
      if p in procs && !Ended(procs[p].status) { Destroy(p); }
    }

    method WaitOnChild(x: int, child: int)
      requires Valid() && Lives(procs, x)
      modifies `procs
      ensures Valid()
      ensures procs == if 0 <= child < MAX_NO_PROCESS then
                         old(procs)[x := old(procs)[x].(status := WaitChild, waitFor := child)]
                       else old(procs)
    {
      if child < 0 || child >= MAX_NO_PROCESS { return; }
      WaitsKeeps(procs, nextPid, x, child, scheduler);
      procs := Waits(procs, x, child);
    }

    /** The thread at the scheduling place, which has been released, leaves list and map. */
    method DropThread(m: int, current: nat)
      requires Valid() && m in procs && current < |procs[m].threads|
      requires procs[m].threads[current] in procs && procs[procs[m].threads[current]].status == Released
      modifies `procs, `gone
      ensures Valid() && Recorded(old(procs), procs, old(gone), gone)
      ensures procs == Dropped(old(procs), m, current, current)
      ensures gone == old(gone) + [old(procs)[m].threads[current]]
    {
      DropLeaves(Now(), m, current);
      gone := gone + [procs[m].threads[current]];
      procs := Dropped(procs, m, current, current);
    }

    /** The list of `m` from its scheduling place on: released threads leave list and map, the first other is chosen. */
    method NextThread(m: int) returns (x: int, ghost r: nat)
      requires Valid() && m in procs && procs[m].next < |procs[m].threads|
      modifies `procs, `gone
      ensures Valid() == true && Recorded(old(procs), procs, old(gone), gone) == true
      ensures Chosen(old(procs), m, r, x, procs) == true
    {
      ghost var was, left := procs, gone;
      r := 0;
      PassedNone(was, nextPid, m);
      while procs[m].threads != []
        invariant Passing(was, left, m, r, nextPid, Now()) == true && m in procs
        decreases |procs[m].threads|
      {
        PassOne(was, nextPid, m, r, procs);
        var current := Current(procs[m]);
        x := procs[m].threads[current];
        if procs[x].status != Released {
          ChooseThread(m, current, was, left, r);
          return;
        }
        PassReleased(m, current, was, left, r);
        r := r + 1;
      }
      x := m;
    }

    /** The search ends: the thread at the scheduling place is chosen. */
    method ChooseThread(m: int, current: nat, ghost was: Table, ghost left: seq<int>, ghost r: nat)
      requires Passing(was, left, m, r, nextPid, Now()) == true && m in procs && r < |was[m].threads|
      requires current == Current(procs[m]) < |procs[m].threads|
      requires var x := Round(was, m)[r]; x in was && was[x].status != Released
      modifies `procs
      ensures Valid() == true && Recorded(was, procs, left, gone) == true
      ensures Chosen(was, m, r, Round(was, m)[r], procs) == true
    {
      PassedChosen(was, m, r, procs);
      NextKeeps(procs, nextPid, m, current + 1, scheduler);
      procs := WithNext(procs, m, current + 1);
    }

    /** One released thread is dropped on the way. */
    method PassReleased(m: int, current: nat, ghost was: Table, ghost left: seq<int>, ghost r: nat)
      requires Passing(was, left, m, r, nextPid, Now()) == true && m in procs && r < |was[m].threads|
      requires current == Current(procs[m]) < |procs[m].threads|
      requires procs[m].threads[current] in procs && procs[procs[m].threads[current]].status == Released
      modifies `procs, `gone
      ensures Passing(was, left, m, r + 1, nextPid, Now()) == true
      ensures m in procs && |procs[m].threads| < |old(procs)[m].threads|
    {
      ghost var before, gone0 := procs, gone;
      PassOne(was, nextPid, m, r, procs);
      DropThread(m, current);
      RecordedTwice(was, before, procs, left, gone0, gone);
    }

    /** The next to run of a process and its threads. */
    method ForSchedule(m: int) returns (x: int, ghost r: nat)
      requires Valid() && m in procs && !IsThread(procs[m])
      modifies `procs, `gone
      ensures Valid() && Recorded(old(procs), procs, old(gone), gone) == true
      ensures old(procs)[m].next <= |old(procs)[m].threads| && Picked(old(procs), m, r, x, procs) == true
      ensures x in procs && (x != m ==> procs[x].owner == m)
    {
      assert Scheduling(procs, m);
      r := 0;
      if Ended(procs[m].status) {
        x := m;
      } else if procs[m].next == |procs[m].threads| {
        NextKeeps(procs, nextPid, m, 0, scheduler);
        procs := WithNext(procs, m, 0);
        x := m;
      } else {
        ghost var was := procs;
        x, r := NextThread(m);
        ChosenThere(was, nextPid, m, r, x, procs);
      }
    }

    /** A process in turn runs, unless it has ended or its wait is not over; when it runs it may end. */
    method DoContextSwitch(x: int, turn: Chance) returns (ran: bool)
      requires Valid() && x in procs
      modifies `procs, `gone
      ensures Valid() <==> (ran && turn.exits ==> MayEnd(Awakened(old(procs), x, turn.ready, kernelProcessID), x))
      ensures x in procs && procs[x].owner == old(procs)[x].owner
      ensures Recorded(old(procs), procs, old(gone), gone) == true
      ensures Switched(old(procs), nextPid, x, turn, kernelProcessID, ran, procs) == true
      ensures RunsWhen(old(procs), x, turn.ready, ran) == true
      ensures !(ran && turn.exits) ==> TurnCases(old(procs), x, turn.ready, kernelProcessID, ran, procs) == true
    {
      CasesHold(procs, x, turn.ready, kernelProcessID);
      ran := false;
      AwakenedKeeps(procs, nextPid, x, turn.ready, kernelProcessID, scheduler);
      match procs[x].status {
        case Released => return;
        case Terminated =>
          if procs[x].parent == kernelProcessID { procs := WithStatus(procs, x, Released); }
          return;
        case Waiting =>
          if !turn.ready { return; }
          procs := WithStatus(procs, x, Run);
        case WaitChild =>
          if Held(procs, x) { return; }
          procs := Woken(procs, x);
        case Run =>
      }
      ran := true;
      if turn.exits {
        EndingLeft(procs, nextPid, x);
        Destroy(x);
      }
    }

    /** One turn of the scheduler: a process that is released once its turn is over leaves list and map. */
    method Turn(i: nat, turn: Chance) returns (x: int, ran: bool, ghost via: Via)
      requires Valid() && i < |scheduler|
      requires turn.exits ==> scheduler[i] in procs && procs[scheduler[i]].parent != NO_PROCESS_ID
      modifies `procs, `gone, `scheduler
      ensures Valid() && Turned(old(Now()), i, turn, kernelProcessID, x, ran, via, Now()) == true
    {
      ListedThere(procs, scheduler, i);
      var m := scheduler[i];
      ghost var was, left := procs, gone;
      ghost var r;
      x, r := ForSchedule(m);
      ghost var chosen, gone1 := procs, gone;
      if turn.exits { TurnMayEnd(Now(), m, x, turn.ready, kernelProcessID); }
      ran := DoContextSwitch(x, turn);
      via := Via(r, chosen, procs);
      RecordedTwice(was, chosen, procs, left, gone1, gone);
      if !IsThread(procs[x]) && procs[x].status == Released {
        ghost var gone2 := gone;
        TakeOut(i);
        RecordedTwice(was, via.switched, procs, left, gone2, gone);
      }
    }

    /** A released process leaves list and map. */
    method TakeOut(i: nat)
      requires Valid() && i < |scheduler| && scheduler[i] in procs
      requires procs[scheduler[i]].status == Released && !IsThread(procs[scheduler[i]])
      modifies `procs, `gone, `scheduler
      ensures Valid() && Recorded(old(procs), procs, old(gone), gone) == true
      ensures procs == old(procs) - {old(scheduler)[i]} && scheduler == Without(old(scheduler), i)
    {
      var x := scheduler[i];
      LeavesTable(Now(), i);
      procs, scheduler, gone := procs - {x}, scheduler[..i] + scheduler[i + 1..], gone + [x];
    }
  }
}
