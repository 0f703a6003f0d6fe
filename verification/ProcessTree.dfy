/**
 Processes and threads: who is whose parent, who is scheduled, and what becomes of the children of a process that ends.
 */
module ProcessTree {

  const NO_PROCESS_ID := -1
  const MAX_NO_PROCESS := 3500

  /** `Waiting` stands for every wait but that on a child. */
  datatype Status = Run | WaitChild | Waiting | Terminated | Released

  /**
   `owner` is the process a thread belongs to; `next` is the place in `threads` where scheduling goes on, the length for
   the end.
   */
  datatype Proc = Proc(owner: int, status: Status, parent: int, children: set<int>, waitFor: int, threads: seq<int>,
                       next: nat)

  type Table = map<int, Proc>

  predicate Ended(s: Status) { s == Terminated || s == Released }

  predicate Lives(t: Table, p: int) { p in t && !Ended(t[p].status) }

  predicate IsThread(p: Proc) { p.owner != NO_PROCESS_ID }

  // ---------------------------------------------------------------- the tree

  /** A process that can be heard of again has a living, older parent, which lists it unless it is a thread. */
  ghost predicate Rooted(t: Table, dying: set<int>, c: int) {
    c in t && t[c].status != Released ==>
      if t[c].parent == NO_PROCESS_ID then (!Ended(t[c].status) || c in dying) && !IsThread(t[c])
      else
        && t[c].parent in t && t[c].parent < c && (Lives(t, t[c].parent) || t[c].parent in dying)
        && (!IsThread(t[c]) ==> c in t[t[c].parent].children)
  }

  /** A thread hangs below its process, which schedules it. */
  ghost predicate Threaded(t: Table, dying: set<int>, c: int) {
    c in t && IsThread(t[c]) ==>
      && t[c].owner in t && !IsThread(t[t[c].owner]) && t[c].owner < c
      && t[c].parent == t[c].owner && t[c].threads == []
      && (Lives(t, t[c].owner) || t[c].owner in dying)
      && c in t[t[c].owner].threads
  }

  ghost predicate Scheduling(t: Table, m: int) {
    m in t ==>
      && t[m].next <= |t[m].threads|
      && (forall i :: 0 <= i < |t[m].threads| ==> t[m].threads[i] in t && t[t[m].threads[i]].owner == m)
      && (forall i, j :: 0 <= i < j < |t[m].threads| ==> t[m].threads[i] != t[m].threads[j])
  }

  /** A process that can end or is ending lists younger processes, and of those not released only its own. */
  ghost predicate Listing(t: Table, nextPid: int, dying: set<int>, m: int) {
    m in t ==> forall c :: c in t[m].children ==>
                 && m < c < nextPid
                 && (c in t ==> !IsThread(t[c]))
                 && (c in t && t[c].status != Released && (Lives(t, m) || m in dying) ==> t[c].parent == m)
  }

  /** The tree, but for processes in `dying`, which still have children though they have ended. */
  ghost predicate Tree(t: Table, nextPid: int, dying: set<int>) {
    && (forall c :: c in t ==> 0 <= c < nextPid)
    && (forall c :: Rooted(t, dying, c))
    && (forall c :: Threaded(t, dying, c))
    && (forall m :: Scheduling(t, m))
    && (forall m :: Listing(t, nextPid, dying, m))
  }

  // ---------------------------------------------------------------- the steps of ending a process

  function WithStatus(t: Table, p: int, s: Status): Table
    requires p in t
  {
    t[p := t[p].(status := s)]
  }

  lemma Marked(t: Table, nextPid: int, dying: set<int>, p: int)
    requires Tree(t, nextPid, dying) && Lives(t, p)
    ensures Tree(WithStatus(t, p, Terminated), nextPid, dying + {p})
  {
    var t' := WithStatus(t, p, Terminated);
    forall c ensures Rooted(t', dying + {p}, c) { assert Rooted(t, dying, c); }
    forall c ensures Threaded(t', dying + {p}, c) { assert Threaded(t, dying, c); }
    forall m ensures Scheduling(t', m) { assert Scheduling(t, m); }
    forall m ensures Listing(t', nextPid, dying + {p}, m) { assert Listing(t, nextPid, dying, m); }
  }

  /** An ended process may be released. */
  lemma ReleasedKeeps(t: Table, nextPid: int, dying: set<int>, p: int)
    requires Tree(t, nextPid, dying) && p in t && Ended(t[p].status)
    ensures Tree(WithStatus(t, p, Released), nextPid, dying)
  {
    var t' := WithStatus(t, p, Released);
    forall c ensures Rooted(t', dying, c) { assert Rooted(t, dying, c); }
    forall c ensures Threaded(t', dying, c) { assert Threaded(t, dying, c); }
    forall m ensures Scheduling(t', m) { assert Scheduling(t, m); }
    forall m ensures Listing(t', nextPid, dying, m) { assert Listing(t, nextPid, dying, m); }
  }

  /** What becomes of one child of an ended process: it is released if it has ended too, and goes to `to` otherwise. */
  function Moved(t: Table, moving: set<int>, to: int, c: int): Proc
    requires c in t
  {
    var p := t[c];
    if c !in moving then p
    else if p.status == Terminated then p.(status := Released)
    else if to in t then p.(parent := to) else p
  }

  function Surviving(t: Table, moving: set<int>): set<int> {
    set x | x in moving && x in t && t[x].status != Terminated
  }

  function HandOver(t: Table, moving: set<int>, to: int): Table {
    map c | c in t ::
      if c == to then Moved(t, moving, to, c).(children := t[c].children + Surviving(t, moving))
      else Moved(t, moving, to, c)
  }

  /** The children of a dying process, handed to one that lives or dies later, no longer keep it. */
  lemma HandedOver(t: Table, nextPid: int, dying: set<int>, p: int, to: int)
    requires Tree(t, nextPid, dying) && p in t && Ended(t[p].status)
    requires t[p].threads == [] && t[p].parent != NO_PROCESS_ID
    requires to in t && to < p && (Lives(t, to) || to in dying) && p in dying
    ensures Tree(HandOver(t, t[p].children, to), nextPid, dying - {p})
  {
    var t', left := HandOver(t, t[p].children, to), dying - {p};
    assert Listing(t, nextPid, dying, p) && Scheduling(t, p);
    forall c ensures Rooted(t', left, c) { assert Rooted(t, dying, c) && Threaded(t, dying, c); }
    forall c ensures Threaded(t', left, c) { assert Threaded(t, dying, c); }
    forall m ensures Scheduling(t', m) { assert Scheduling(t, m); }
    forall m ensures Listing(t', nextPid, left, m) { assert Listing(t, nextPid, dying, m); }
  }

  /** The thread at place `i` is gone from the map and from the list of its process. */
  function Dropped(t: Table, m: int, i: nat, next: nat): Table
    requires m in t && i < |t[m].threads|
  {
    var p := t[m];
    (t - {p.threads[i]})[m := p.(threads := p.threads[..i] + p.threads[i + 1..], next := next)]
  }

  lemma DroppedKeeps(t: Table, nextPid: int, dying: set<int>, m: int, i: nat, next: nat)
    requires Tree(t, nextPid, dying) && m in t && i < |t[m].threads| && next < |t[m].threads|
    requires t[m].threads[i] !in dying && t[m].threads[i] in t && Ended(t[t[m].threads[i]].status)
    ensures Tree(Dropped(t, m, i, next), nextPid, dying)
  {
    var t', x := Dropped(t, m, i, next), t[m].threads[i];
    assert Scheduling(t, m) && Threaded(t, dying, x);
    forall c ensures Rooted(t', dying, c) { assert Rooted(t, dying, c); }
    forall c ensures Threaded(t', dying, c) {
      assert Threaded(t, dying, c);
      if c in t' && IsThread(t'[c]) && t[c].owner == m {
        var j :| 0 <= j < |t[m].threads| && t[m].threads[j] == c;
        assert t'[m].threads[if j < i then j else j - 1] == c;
      }
    }
    forall k ensures Scheduling(t', k) {
      assert Scheduling(t, k);
      if k in t' && k != m { OthersThreads(t, nextPid, dying, k, m, i); }
    }
    forall k ensures Listing(t', nextPid, dying, k) { assert Listing(t, nextPid, dying, k); }
  }

  lemma OthersThreads(t: Table, nextPid: int, dying: set<int>, k: int, m: int, i: nat)
    requires Tree(t, nextPid, dying) && k in t && m in t && k != m && i < |t[m].threads|
    ensures t[m].threads[i] !in t[k].threads && t[m].threads[i] != m
  {
    assert Scheduling(t, k) && Scheduling(t, m) && Threaded(t, dying, t[m].threads[i]);
  }

  lemma ThreadsNeedOwner(t: Table, nextPid: int, dying: set<int>, m: int)
    requires Tree(t, nextPid, dying) && m in t && t[m].threads != []
    ensures Lives(t, m) || m in dying
  {
    assert Scheduling(t, m) && Threaded(t, dying, t[m].threads[0]);
  }

  /** An ended process can leave the map: none hangs below it any more. */
  lemma RemovedKeeps(t: Table, nextPid: int, dying: set<int>, p: int)
    requires Tree(t, nextPid, dying) && p in t && Ended(t[p].status) && p !in dying && !IsThread(t[p])
    ensures t[p].threads == [] && Tree(t - {p}, nextPid, dying)
  {
    var t' := t - {p};
    if t[p].threads != [] { ThreadsNeedOwner(t, nextPid, dying, p); }
    forall c ensures Rooted(t', dying, c) { assert Rooted(t, dying, c); }
    forall c ensures Threaded(t', dying, c) { assert Threaded(t, dying, c); }
    forall k ensures Scheduling(t', k) { assert Scheduling(t, k); }
    forall k ensures Listing(t', nextPid, dying, k) { assert Listing(t, nextPid, dying, k); }
  }

  /** The first thread of a dying process: ended if it still lived, then released and gone. */
  function FirstThreadEnded(t: Table, m: int): Table
    requires m in t && t[m].threads != [] && t[m].threads[0] in t && t[m].threads[0] != m
  {
    var x := t[m].threads[0];
    var t1 := if Ended(t[x].status) then t else HandOver(WithStatus(t, x, Terminated), t[x].children, t[x].parent);
    Dropped(WithStatus(t1, x, Released), m, 0, 0)
  }

  lemma FirstThreadKeeps(t: Table, nextPid: int, m: int)
    requires Tree(t, nextPid, {m}) && m in t && t[m].threads != []
    ensures t[m].threads[0] in t && t[m].threads[0] != m
    ensures Tree(FirstThreadEnded(t, m), nextPid, {m})
  {
    var x := t[m].threads[0];
    assert Scheduling(t, m) && Threaded(t, {m}, x);
    var t1 := t;
    if !Ended(t[x].status) {
      Marked(t, nextPid, {m}, x);
      HandedOver(WithStatus(t, x, Terminated), nextPid, {m} + {x}, x, m);
      t1 := HandOver(WithStatus(t, x, Terminated), t[x].children, m);
      assert {m} + {x} - {x} == {m};
    }
    ReleasedKeeps(t1, nextPid, {m}, x);
    DroppedKeeps(WithStatus(t1, x, Released), nextPid, {m}, m, 0, 0);
  }

  function Bare(p: Proc): Proc { p.(threads := [], children := {}, next := 0) }

  /** Of the dying process itself only the thread list and the children change. */
  lemma FirstThreadLeaves(t: Table, nextPid: int, m: int)
    requires Tree(t, nextPid, {m}) && m in t && t[m].threads != []
    ensures t[m].threads[0] in t && t[m].threads[0] != m
    ensures var t' := FirstThreadEnded(t, m);
            m in t' && t'[m].threads == t[m].threads[1..] && Bare(t'[m]) == Bare(t[m])
  {
    var x := t[m].threads[0];
    assert Scheduling(t, m) && Threaded(t, {m}, x) && Listing(t, nextPid, {m}, x);
  }

  /** All threads of a dying process, the first in the list first. */
  function ThreadsEnded(t: Table, nextPid: int, m: int): (r: Table)
    requires Tree(t, nextPid, {m}) && m in t
    ensures Tree(r, nextPid, {m}) && m in r && r[m].threads == []
    ensures Bare(r[m]) == Bare(t[m])
    decreases |t[m].threads|
  {
    if t[m].threads == [] then t
    else
      FirstThreadKeeps(t, nextPid, m);
      FirstThreadLeaves(t, nextPid, m);
      ThreadsEnded(FirstThreadEnded(t, m), nextPid, m)
  }

  /** All that becomes of a process that ends, its threads and its children. */
  function Destroyed(t: Table, nextPid: int, p: int): (r: Table)
    requires Tree(t, nextPid, {}) && Lives(t, p) && t[p].parent != NO_PROCESS_ID
    ensures Tree(r, nextPid, {}) && p in r && r[p].status == Terminated
  {
    Marked(t, nextPid, {}, p);
    assert {} + {p} == {p} && {p} - {p} == {};
    var t2 := ThreadsEnded(WithStatus(t, p, Terminated), nextPid, p);
    assert Rooted(t2, {p}, p) && Listing(t2, nextPid, {p}, p);
    HandedOver(t2, nextPid, {p}, p, t2[p].parent);
    HandOver(t2, t2[p].children, t2[p].parent)
  }

  /** `c` lives, is no thread, and is the child of `p` or of a thread of `p`. */
  ghost predicate Dependant(t: Table, p: int, c: int) {
    Lives(t, c) && !IsThread(t[c]) && c != p && (t[c].parent == p || (t[c].parent in t && t[t[c].parent].owner == p))
  }

  lemma FirstThreadRehomes(t: Table, nextPid: int, m: int, c: int)
    requires Tree(t, nextPid, {m}) && m in t && t[m].threads != [] && Dependant(t, m, c)
    ensures t[m].threads[0] in t && t[m].threads[0] != m
    ensures Dependant(FirstThreadEnded(t, m), m, c)
  {
    var x := t[m].threads[0];
    assert Scheduling(t, m) && Threaded(t, {m}, x) && Rooted(t, {m}, c) && Listing(t, nextPid, {m}, x);
  }

  lemma {:induction false} ThreadsRehome(t: Table, nextPid: int, m: int, c: int)
    requires Tree(t, nextPid, {m}) && m in t && Dependant(t, m, c)
    ensures Dependant(ThreadsEnded(t, nextPid, m), m, c) && ThreadsEnded(t, nextPid, m)[c].parent == m
    decreases |t[m].threads|
  {
    if t[m].threads == [] {
      assert Rooted(t, {m}, c);
      assert Threaded(t, {m}, t[c].parent);
    } else {
      FirstThreadKeeps(t, nextPid, m);
      FirstThreadLeaves(t, nextPid, m);
      FirstThreadRehomes(t, nextPid, m, c);
      ThreadsRehome(FirstThreadEnded(t, m), nextPid, m, c);
    }
  }

  /** The living children of a process that ends, and of its threads, go to its parent. */
  lemma Rehomed(t: Table, nextPid: int, p: int, c: int)
    requires Tree(t, nextPid, {}) && Lives(t, p) && t[p].parent != NO_PROCESS_ID && Dependant(t, p, c)
    ensures var t', to := Destroyed(t, nextPid, p), t[p].parent;
            Lives(t', c) && t'[c].parent == to && to in t' && c in t'[to].children
  {
    var t1 := WithStatus(t, p, Terminated);
    Marked(t, nextPid, {}, p);
    assert {} + {p} == {p} && {p} - {p} == {};
    ThreadsRehome(t1, nextPid, p, c);
    var t2 := ThreadsEnded(t1, nextPid, p);
    assert Rooted(t2, {p}, c) && Rooted(t2, {p}, p);
  }

  /** `c` is neither `p` nor hangs below it or its threads. */
  ghost predicate Unrelated(t: Table, p: int, c: int) {
    c in t && c != p && t[c].owner != p && t[c].parent != p && (t[c].parent in t ==> t[t[c].parent].owner != p)
  }

  ghost predicate SameStanding(t: Table, t': Table, c: int) {
    && c in t && c in t' && t'[c].status == t[c].status
    && t'[c].parent == t[c].parent && t'[c].owner == t[c].owner && t'[c].threads == t[c].threads
    && t'[c].waitFor == t[c].waitFor
  }

  lemma FirstThreadSpares(t: Table, nextPid: int, m: int, c: int)
    requires Tree(t, nextPid, {m}) && m in t && t[m].threads != [] && Unrelated(t, m, c)
    requires t[c].status != Released
    ensures t[m].threads[0] in t && t[m].threads[0] != m
    ensures Unrelated(FirstThreadEnded(t, m), m, c) && SameStanding(t, FirstThreadEnded(t, m), c)
  {
    var x := t[m].threads[0];
    assert Scheduling(t, m) && Threaded(t, {m}, x) && Rooted(t, {m}, c) && Listing(t, nextPid, {m}, x);
  }

  lemma {:induction false} ThreadsSpare(t: Table, nextPid: int, m: int, c: int)
    requires Tree(t, nextPid, {m}) && m in t && Unrelated(t, m, c) && t[c].status != Released
    ensures Unrelated(ThreadsEnded(t, nextPid, m), m, c) && SameStanding(t, ThreadsEnded(t, nextPid, m), c)
    decreases |t[m].threads|
  {
    if t[m].threads != [] {
      FirstThreadKeeps(t, nextPid, m);
      FirstThreadLeaves(t, nextPid, m);
      FirstThreadSpares(t, nextPid, m, c);
      ThreadsSpare(FirstThreadEnded(t, m), nextPid, m, c);
    }
  }

  /** A process that does not hang below the one that ends goes on as it was. */
  lemma Spared(t: Table, nextPid: int, p: int, c: int)
    requires Tree(t, nextPid, {}) && Lives(t, p) && t[p].parent != NO_PROCESS_ID
    requires Unrelated(t, p, c) && t[c].status != Released
    ensures SameStanding(t, Destroyed(t, nextPid, p), c)
  {
    var t1 := WithStatus(t, p, Terminated);
    Marked(t, nextPid, {}, p);
    assert {} + {p} == {p} && {p} - {p} == {};
    ThreadsSpare(t1, nextPid, p, c);
    var t2 := ThreadsEnded(t1, nextPid, p);
    assert Rooted(t2, {p}, c) && Listing(t2, nextPid, {p}, p);
  }

  /** A process that lives goes on as far as its own status and wait are concerned. */
  ghost predicate LivesOn(t: Table, t': Table, c: int) {
    && c in t && c in t' && t'[c].status == t[c].status && t'[c].waitFor == t[c].waitFor && t'[c].owner == t[c].owner
    && t'[c].threads == t[c].threads && t'[c].next == t[c].next
  }

  lemma {:induction false} ThreadsSpareLiving(t: Table, nextPid: int, m: int, c: int)
    requires Tree(t, nextPid, {m}) && m in t && Lives(t, c) && c != m && t[c].owner != m
    ensures LivesOn(t, ThreadsEnded(t, nextPid, m), c)
    decreases |t[m].threads|
  {
    if t[m].threads != [] {
      FirstThreadKeeps(t, nextPid, m);
      FirstThreadLeaves(t, nextPid, m);
      assert Scheduling(t, m) && Threaded(t, {m}, t[m].threads[0]);
      ThreadsSpareLiving(FirstThreadEnded(t, m), nextPid, m, c);
    }
  }

  /** A child of `m` that has ended and is no thread. */
  ghost predicate EndedChild(t: Table, m: int, c: int) {
    c in t && t[c].status == Terminated && t[c].parent == m && !IsThread(t[c])
  }

  lemma {:induction false} ThreadsKeepEnded(t: Table, nextPid: int, m: int, c: int)
    requires Tree(t, nextPid, {m}) && m in t && EndedChild(t, m, c)
    ensures EndedChild(ThreadsEnded(t, nextPid, m), m, c)
    decreases |t[m].threads|
  {
    if t[m].threads != [] {
      FirstThreadKeeps(t, nextPid, m);
      FirstThreadLeaves(t, nextPid, m);
      var x := t[m].threads[0];
      assert Scheduling(t, m) && Threaded(t, {m}, x) && Rooted(t, {m}, c) && Listing(t, nextPid, {m}, x);
      ThreadsKeepEnded(FirstThreadEnded(t, m), nextPid, m, c);
    }
  }

  /** A child that had ended is released when its parent ends. */
  lemma EndedReleased(t: Table, nextPid: int, p: int, c: int)
    requires Tree(t, nextPid, {}) && Lives(t, p) && t[p].parent != NO_PROCESS_ID && EndedChild(t, p, c)
    ensures c in Destroyed(t, nextPid, p) && Destroyed(t, nextPid, p)[c].status == Released
  {
    var t1 := WithStatus(t, p, Terminated);
    Marked(t, nextPid, {}, p);
    assert {} + {p} == {p} && {p} - {p} == {};
    ThreadsKeepEnded(t1, nextPid, p, c);
    var t2 := ThreadsEnded(t1, nextPid, p);
    assert Rooted(t2, {p}, c) && Rooted(t2, {p}, p);
  }

  lemma {:induction false} ThreadsGone(t: Table, nextPid: int, m: int, x: int)
    requires Tree(t, nextPid, {m}) && m in t && (x in t[m].threads || x !in t)
    ensures x !in ThreadsEnded(t, nextPid, m)
    decreases |t[m].threads|
  {
    if t[m].threads != [] {
      FirstThreadKeeps(t, nextPid, m);
      FirstThreadLeaves(t, nextPid, m);
      if x in t[m].threads && x != t[m].threads[0] { assert x in t[m].threads[1..]; }
      ThreadsGone(FirstThreadEnded(t, m), nextPid, m, x);
    }
  }

  /** Every thread of a process that ends leaves the map. */
  lemma ThreadsLeave(t: Table, nextPid: int, p: int, x: int)
    requires Tree(t, nextPid, {}) && Lives(t, p) && t[p].parent != NO_PROCESS_ID && x in t[p].threads
    ensures x !in Destroyed(t, nextPid, p)
  {
    Marked(t, nextPid, {}, p);
    assert {} + {p} == {p} && {p} - {p} == {};
    ThreadsGone(WithStatus(t, p, Terminated), nextPid, p, x);
  }

  /** The map without `left`; what belongs to whom is as before. */
  ghost predicate OnlyLeft(t: Table, t': Table, left: seq<int>) {
    && (forall c :: c in t' <==> c in t && c !in left)
    && (forall c :: c in t' ==> t'[c].owner == t[c].owner)
  }

  lemma FirstThreadGoes(t: Table, nextPid: int, m: int)
    requires Tree(t, nextPid, {m}) == true && m in t && t[m].threads != []
    ensures t[m].threads[0] in t && t[m].threads[0] != m
    ensures OnlyLeft(t, FirstThreadEnded(t, m), [t[m].threads[0]]) == true
  {
    assert Scheduling(t, m) && Threaded(t, {m}, t[m].threads[0]);
  }

  lemma {:induction false} ThreadsEndedLeave(t: Table, nextPid: int, m: int)
    requires Tree(t, nextPid, {m}) == true && m in t
    ensures OnlyLeft(t, ThreadsEnded(t, nextPid, m), t[m].threads) == true
    decreases |t[m].threads|
  {
    if t[m].threads != [] {
      FirstThreadKeeps(t, nextPid, m);
      FirstThreadLeaves(t, nextPid, m);
      FirstThreadGoes(t, nextPid, m);
      var t1, x := FirstThreadEnded(t, m), t[m].threads[0];
      ThreadsEndedLeave(t1, nextPid, m);
      LeftInTurn(t, t1, ThreadsEnded(t1, nextPid, m), x, t1[m].threads);
      assert t[m].threads == [x] + t1[m].threads;
    }
  }

  lemma LeftInTurn(t: Table, t1: Table, t2: Table, x: int, left: seq<int>)
    requires OnlyLeft(t, t1, [x]) == true && OnlyLeft(t1, t2, left) == true
    ensures OnlyLeft(t, t2, [x] + left) == true
  {
  }

  // ---------------------------------------------------------------- a process without parent

  /** Nobody takes the children of a process without parent. */
  function RootDestroyed(t: Table, nextPid: int, p: int): Table
    requires Tree(t, nextPid, {}) && Lives(t, p)
  {
    Marked(t, nextPid, {}, p);
    assert {} + {p} == {p};
    var t2 := ThreadsEnded(WithStatus(t, p, Terminated), nextPid, p);
    WithStatus(HandOver(t2, t2[p].children, NO_PROCESS_ID), p, Released)
  }

  /** Ending a process brings nobody back to life. */
  ghost predicate Waned(t: Table, t': Table, c: int) {
    c in t' ==> c in t && (Lives(t', c) ==> Lives(t, c) && t'[c].owner == t[c].owner)
  }

  lemma FirstThreadWanes(t: Table, nextPid: int, m: int, c: int)
    requires Tree(t, nextPid, {m}) && m in t && t[m].threads != []
    ensures t[m].threads[0] in t && t[m].threads[0] != m && Waned(t, FirstThreadEnded(t, m), c)
  {
    assert Scheduling(t, m) && Threaded(t, {m}, t[m].threads[0]);
  }

  lemma {:induction false} ThreadsOnlyEnd(t: Table, nextPid: int, m: int, c: int)
    requires Tree(t, nextPid, {m}) && m in t
    ensures Waned(t, ThreadsEnded(t, nextPid, m), c)
    decreases |t[m].threads|
  {
    if t[m].threads != [] {
      FirstThreadKeeps(t, nextPid, m);
      FirstThreadLeaves(t, nextPid, m);
      FirstThreadWanes(t, nextPid, m, c);
      ThreadsOnlyEnd(FirstThreadEnded(t, m), nextPid, m, c);
    }
  }

  /** It may end exactly when it has no living dependants: otherwise they are left with a parent that is gone. */
  lemma RootMayEnd(t: Table, nextPid: int, p: int)
    requires Tree(t, nextPid, {}) && Lives(t, p) && t[p].parent == NO_PROCESS_ID
    ensures Tree(RootDestroyed(t, nextPid, p), nextPid, {}) <==> forall c :: !Dependant(t, p, c)
  {
    var t1 := WithStatus(t, p, Terminated);
    Marked(t, nextPid, {}, p);
    assert {} + {p} == {p};
    var t2 := ThreadsEnded(t1, nextPid, p);
    var t' := RootDestroyed(t, nextPid, p);
    assert Listing(t2, nextPid, {p}, p);
    if c :| Dependant(t, p, c) {
      ThreadsRehome(t1, nextPid, p, c);
      assert !Rooted(t', {}, c);
    } else {
      forall c ensures Lives(t2, c) ==> t2[c].parent != p { NoDependantLeft(t, nextPid, p, c); }
      ChildlessReleased(t2, nextPid, p);
    }
  }

  lemma ChildlessReleased(t: Table, nextPid: int, p: int)
    requires Tree(t, nextPid, {p}) && p in t && t[p].status == Terminated && t[p].threads == []
    requires forall c :: Lives(t, c) ==> t[c].parent != p
    ensures Tree(WithStatus(HandOver(t, t[p].children, NO_PROCESS_ID), p, Released), nextPid, {})
  {
    var t' := WithStatus(HandOver(t, t[p].children, NO_PROCESS_ID), p, Released);
    assert Listing(t, nextPid, {p}, p);
    forall c ensures Rooted(t', {}, c) { assert Rooted(t, {p}, c) && Threaded(t, {p}, c); }
    forall c ensures Threaded(t', {}, c) { assert Threaded(t, {p}, c) && Scheduling(t, p); }
    forall m ensures Scheduling(t', m) { assert Scheduling(t, m); }
    forall m ensures Listing(t', nextPid, {}, m) { assert Listing(t, nextPid, {p}, m); }
  }

  lemma NoDependantLeft(t: Table, nextPid: int, p: int, c: int)
    requires Tree(t, nextPid, {}) && Lives(t, p) && !Dependant(t, p, c)
    requires Tree(WithStatus(t, p, Terminated), nextPid, {p})
    ensures var t2 := ThreadsEnded(WithStatus(t, p, Terminated), nextPid, p); Lives(t2, c) ==> t2[c].parent != p
  {
    var t1 := WithStatus(t, p, Terminated);
    var t2 := ThreadsEnded(t1, nextPid, p);
    ThreadsOnlyEnd(t1, nextPid, p, c);
    if Lives(t2, c) {
      assert Threaded(t1, {p}, c) && Threaded(t2, {p}, c) && Rooted(t1, {p}, c);
      if t[c].owner != p { ThreadsSpare(t1, nextPid, p, c); }
    }
  }

  // ---------------------------------------------------------------- new processes and threads

  function Newcomer(owner: int, parent: int): Proc { Proc(owner, Run, parent, {}, NO_PROCESS_ID, [], 0) }

  /** The parent lists a child, which need not be in the map. */
  function WithChild(t: Table, pid: int, parent: int): Table {
    if parent in t then t[parent := t[parent].(children := t[parent].children + {pid})] else t
  }

  lemma ChildListed(t: Table, nextPid: int, parent: int)
    requires Tree(t, nextPid, {}) && nextPid >= 0 && (parent == NO_PROCESS_ID || Lives(t, parent))
    ensures Tree(WithChild(t, nextPid, parent), nextPid + 1, {})
  {
    var t', after := WithChild(t, nextPid, parent), nextPid + 1;
    forall c ensures Rooted(t', {}, c) { assert Rooted(t, {}, c); }
    forall c ensures Threaded(t', {}, c) { assert Threaded(t, {}, c); }
    forall m ensures Scheduling(t', m) { assert Scheduling(t, m); }
    forall m ensures Listing(t', after, {}, m) { assert Listing(t, nextPid, {}, m); }
  }

  function WithProcess(t: Table, pid: int, parent: int): Table {
    WithChild(t, pid, parent)[pid := Newcomer(NO_PROCESS_ID, parent)]
  }

  lemma ProcessAdded(t: Table, nextPid: int, parent: int)
    requires Tree(t, nextPid, {}) && nextPid >= 0 && (parent == NO_PROCESS_ID || Lives(t, parent))
    ensures Tree(WithProcess(t, nextPid, parent), nextPid + 1, {})
  {
    var t' := WithProcess(t, nextPid, parent);
    forall c ensures Rooted(t', {}, c) { assert Rooted(t, {}, c); }
    forall c ensures Threaded(t', {}, c) { assert Threaded(t, {}, c); }
    forall m ensures Scheduling(t', m) { assert Scheduling(t, m); }
    var after := nextPid + 1;
    forall m ensures Listing(t', after, {}, m) { assert Listing(t, nextPid, {}, m); }
  }

  /** A thread goes to the end of the list; scheduling that had come to the end stays there. */
  function WithThread(t: Table, pid: int, m: int): Table
    requires m in t
  {
    var p := t[m];
    var next := if p.next == |p.threads| then p.next + 1 else p.next;
    t[m := p.(threads := p.threads + [pid], next := next)][pid := Newcomer(m, m)]
  }

  lemma ThreadAdded(t: Table, nextPid: int, m: int)
    requires Tree(t, nextPid, {}) && nextPid >= 0 && Lives(t, m) && !IsThread(t[m])
    ensures Tree(WithThread(t, nextPid, m), nextPid + 1, {})
  {
    var t' := WithThread(t, nextPid, m);
    assert t'[m].threads[|t[m].threads|] == nextPid;
    forall c ensures Rooted(t', {}, c) { assert Rooted(t, {}, c); }
    forall c ensures Threaded(t', {}, c) {
      assert Threaded(t, {}, c);
      if c in t && IsThread(t[c]) && t[c].owner == m {
        var j :| 0 <= j < |t[m].threads| && t[m].threads[j] == c;
        assert t'[m].threads[j] == c;
      }
    }
    forall k ensures Scheduling(t', k) { assert Scheduling(t, k); }
    var after := nextPid + 1;
    forall k ensures Listing(t', after, {}, k) { assert Listing(t, nextPid, {}, k); }
  }

  // ---------------------------------------------------------------- waiting

  /** The child `x` waits for keeps it waiting: it is there, it is `x`'s, and it has not ended. */
  predicate Held(t: Table, x: int)
    requires x in t
  {
    var c := t[x].waitFor;
    c >= 0 && c in t && t[c].parent == x && t[c].status != Terminated
  }

  /** A process whose wait on a child is over: the child that has ended is released and listed no longer. */
  function Woken(t: Table, x: int): Table
    requires x in t
  {
    var c := t[x].waitFor;
    if c < 0 then t[x := t[x].(waitFor := NO_PROCESS_ID, status := Run)]
    else
      var t1 := if c in t && t[c].parent == x && t[c].status == Terminated then WithStatus(t, c, Released) else t;
      t1[x := t1[x].(children := t1[x].children - {c}, waitFor := NO_PROCESS_ID, status := Run)]
  }

  lemma WokenKeeps(t: Table, nextPid: int, x: int)
    requires Tree(t, nextPid, {}) && x in t && t[x].status == WaitChild && !Held(t, x)
    ensures Tree(Woken(t, x), nextPid, {}) && Woken(t, x).Keys == t.Keys
    ensures x in Woken(t, x) && Woken(t, x)[x].status == Run
    ensures forall c :: c in t && c != x && (c != t[x].waitFor || t[c].parent != x) ==> Woken(t, x)[c] == t[c]
    ensures Woken(t, x)[x].parent == t[x].parent && Woken(t, x)[x].owner == t[x].owner
  {
    var t', c0 := Woken(t, x), t[x].waitFor;
    assert Rooted(t, {}, x);
    forall c ensures Rooted(t', {}, c) { assert Rooted(t, {}, c); }
    forall c ensures Threaded(t', {}, c) { assert Threaded(t, {}, c); }
    forall m ensures Scheduling(t', m) { assert Scheduling(t, m); }
    forall m ensures Listing(t', nextPid, {}, m) { assert Listing(t, nextPid, {}, m); }
  }

  lemma WokenAwake(t: Table, nextPid: int, x: int, s: Status)
    requires Tree(t, nextPid, {}) && Lives(t, x) && !Ended(s)
    ensures Tree(WithStatus(t, x, s), nextPid, {})
  {
    var t' := WithStatus(t, x, s);
    forall c ensures Rooted(t', {}, c) { assert Rooted(t, {}, c); }
    forall c ensures Threaded(t', {}, c) { assert Threaded(t, {}, c); }
    forall m ensures Scheduling(t', m) { assert Scheduling(t, m); }
    forall m ensures Listing(t', nextPid, {}, m) { assert Listing(t, nextPid, {}, m); }
  }
}
