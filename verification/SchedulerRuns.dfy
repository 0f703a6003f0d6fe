/** Runs of the scheduler: the turns inside a process, a pass over the list, and any sequence of operations. */
module SchedulerRuns {
  import opened ProcessTree
  import opened Scheduler

  // ---------------------------------------------------------------- turns inside a process

  /** As many turns from the `j`th on as there are members are one turn of each. */
  ghost predicate OneEach(turns: seq<int>, party: seq<int>, j: nat) {
    j + |party| <= |turns| ==> multiset(turns[j..j + |party|]) == multiset(party)
  }

  /** The turns of `m` so far went round. */
  ghost predicate WentRound(t: Table, m: int, turns: seq<int>)
    requires m in t
  {
    forall i :: 0 <= i < |turns| ==> turns[i] == Party(t, m)[Place(t[m].next, i, |t[m].threads|)]
  }

  lemma TurnTaken(t: Table, m: int, i: nat, r: nat, x: int, t': Table)
    requires Lives(t, m) && NoneReleased(t, m)
    requires Picked(WithNext(t, m, Place(t[m].next, i, |t[m].threads|)), m, r, x, t')
    ensures x == Party(t, m)[Place(t[m].next, i, |t[m].threads|)]
    ensures t' == WithNext(t, m, Place(t[m].next, i + 1, |t[m].threads|))
  {
    NextPlace(t[m].next + i, |t[m].threads| + 1);
    TurnAt(t, m, Place(t[m].next, i, |t[m].threads|), r, x, t');
  }

  /** `n` turns of a process whose threads come and go no more: any `k + 1` in a row are a turn of each, once. */
  method Rotate(pm: ProcessManager, m: int, n: nat) returns (turns: seq<int>)
    requires pm.Valid() && Lives(pm.procs, m) && !IsThread(pm.procs[m]) && NoneReleased(pm.procs, m)
    modifies pm
    ensures pm.Valid() && |turns| == n && Distinct(Party(old(pm.procs), m))
    ensures forall j: nat :: OneEach(turns, Party(old(pm.procs), m), j)
  {
    ghost var was, k := pm.procs, |pm.procs[m].threads|;
    turns := [];
    assert Scheduling(was, m);
    PartyDistinct(was, pm.nextPid, m);
    PlaceIs(was[m].next, 0, k);
    for i := 0 to n
      invariant pm.Valid() && |turns| == i && pm.procs == WithNext(was, m, Place(was[m].next, i, k))
      invariant WentRound(was, m, turns)
    {
      var x, r := pm.ForSchedule(m);
      TurnTaken(was, m, i, r, x, pm.procs);
      turns := turns + [x];
    }
    forall j: nat ensures OneEach(turns, Party(was, m), j) {
      if j + k + 1 <= n { WindowOfTurns(was, m, turns, j); }
    }
  }

  lemma WindowOfTurns(t: Table, m: int, turns: seq<int>, j: nat)
    requires m in t && t[m].next <= |t[m].threads| && WentRound(t, m, turns) && j + |t[m].threads| + 1 <= |turns|
    ensures OneEach(turns, Party(t, m), j)
  {
    var k := |t[m].threads|;
    var window := turns[j..j + k + 1];
    forall i | 0 <= i < |window| ensures window[i] == Party(t, m)[Place(Place(t[m].next, j, k), i, k)] {
      PlaceFrom(t[m].next, j, i, k);
    }
    OneTurnEach(t, m, Place(t[m].next, j, k), window);
  }

  /** How many turns of `m` come before the one at which the thread at place `j` is looked at. */
  function Ahead(t: Table, m: int, j: nat): int
    requires m in t && j < |t[m].threads|
  {
    AheadIn(t[m], j)
  }

  function AheadIn(p: Proc, j: nat): int
    requires j < |p.threads|
  {
    if j >= p.next then j - p.next else |p.threads| - p.next + 1 + j
  }

  /** The place in turn order of the thread at place `j`. */
  function InTurn(p: Proc, j: nat): int {
    if j >= p.next then j - p.next else |p.threads| - p.next + j
  }

  /** Where a thread is when the `r` before it in turn order are gone and the one behind them has had its turn. */
  lemma CulledPlace(p: Proc, r: nat, j: nat) returns (j': nat)
    requires p.next < |p.threads| && j < |p.threads| && r < InTurn(p, j)
    ensures r < |p.threads| && var q := CulledProc(p, r);
            && j' < |q.threads| && q.threads[j'] == p.threads[j]
            && AheadIn(q.(next := if q.next == |q.threads| then 1 else q.next + 1), j') < AheadIn(p, j)
  {
    var tail := |p.threads| - p.next;
    if r < tail {
      j' := if j >= p.next then j - r else j;
    } else {
      j' := j - (r - tail);
    }
  }

  /** A released thread is gone or nearer to its turn; the others stay. */
  lemma Nearer(t: Table, nextPid: int, m: int, r: nat, x: int, t': Table, j: nat) returns (j': nat)
    requires Tree(t, nextPid, {}) && m in t && t[m].next <= |t[m].threads| && !Ended(t[m].status)
    requires Picked(t, m, r, x, t') && j < |t[m].threads|
    requires t[m].threads[j] in t && t[t[m].threads[j]].status == Released
    ensures m in t' && t'[m].status == t[m].status && t'[m].next <= |t'[m].threads|
    ensures t[m].threads[j] !in t' ||
            (j' < |t'[m].threads| && t'[m].threads[j'] == t[m].threads[j] && Ahead(t', m, j') < Ahead(t, m, j))
  {
    var p := t[m];
    j' := j;
    assert Scheduling(t, m);
    if p.next < |p.threads| {
      ChosenThere(t, nextPid, m, r, x, t');
      var d := InTurn(p, j);
      assert Round(t, m)[d] == p.threads[j];
      if d < r {
        assert Round(t, m)[..r][d] == p.threads[j];
      } else {
        j' := CulledPlace(p, r, j);
      }
    }
  }

  /** The thread `y` of `m` is gone, or released and less than `n` turns away. */
  ghost predicate GoneWithin(t: Table, m: int, y: int, n: int) {
    y in t ==>
      && m in t && t[y].status == Released
      && exists j: nat :: j < |t[m].threads| && t[m].threads[j] == y && Ahead(t, m, j) < n
  }

  lemma GoneSooner(t: Table, nextPid: int, m: int, r: nat, x: int, t': Table, y: int, n: int)
    requires Tree(t, nextPid, {}) && m in t && t[m].next <= |t[m].threads| && !Ended(t[m].status)
    requires Picked(t, m, r, x, t') && GoneWithin(t, m, y, n)
    ensures GoneWithin(t', m, y, n - 1)
  {
    if y in t {
      var j: nat :| j < |t[m].threads| && t[m].threads[j] == y && Ahead(t, m, j) < n;
      var j' := Nearer(t, nextPid, m, r, x, t', j);
      ThreadOf(t, nextPid, m, j);
      if y in t' { assert t'[m].threads[j'] == y && Ahead(t', m, j') < n - 1; }
    }
  }

  ghost predicate WasReleased(t: Table, m: int, y: int) {
    m in t && y in t[m].threads && y in t && t[y].status == Released
  }

  /** The threads of `m` that had been released when the turns began: each gone, or less than `n` turns away. */
  ghost predicate SweptWithin(was: Table, t: Table, m: int, n: int)
    requires m in was
  {
    forall y :: WasReleased(was, m, y) ==> GoneWithin(t, m, y, n)
  }

  /** In one turn more than it has threads, every thread of `m` that had been released leaves, and none of them runs. */
  method Sweep(pm: ProcessManager, m: int) returns (turns: seq<int>)
    requires pm.Valid() && Lives(pm.procs, m) && !IsThread(pm.procs[m])
    modifies pm
    ensures pm.Valid() && |turns| == |old(pm.procs)[m].threads| + 1
    ensures forall y :: WasReleased(old(pm.procs), m, y) ==> y !in pm.procs && y in pm.gone && y !in turns
    ensures Recorded(old(pm.procs), pm.procs, old(pm.gone), pm.gone)
  {
    ghost var was, left := pm.procs, pm.gone;
    var n := |pm.procs[m].threads| + 1;
    SweepBegins(was, pm.nextPid, m);
    turns := [];
    for i := 0 to n
      invariant pm.Valid() && Lives(pm.procs, m) && !IsThread(pm.procs[m]) && |turns| == i
      invariant SweptWithin(was, pm.procs, m, n - i) && Recorded(was, pm.procs, left, pm.gone)
      invariant forall y :: y in turns ==> !WasReleased(was, m, y)
    {
      ghost var before, gone := pm.procs, pm.gone;
      var x, r := pm.ForSchedule(m);
      RecordedTwice(was, before, pm.procs, left, gone, pm.gone);
      SweepGoesOn(was, before, pm.nextPid, m, r, x, pm.procs, n - i);
      turns := turns + [x];
    }
    assert Scheduling(pm.procs, m);
    forall y | WasReleased(was, m, y) ensures y !in pm.procs {
      assert GoneWithin(pm.procs, m, y, 0);
    }
  }

  lemma SweepBegins(t: Table, nextPid: int, m: int)
    requires Tree(t, nextPid, {}) && m in t
    ensures SweptWithin(t, t, m, |t[m].threads| + 1)
  {
    assert Scheduling(t, m);
    forall y | WasReleased(t, m, y) ensures GoneWithin(t, m, y, |t[m].threads| + 1) {
      var j :| 0 <= j < |t[m].threads| && t[m].threads[j] == y;
      assert Ahead(t, m, j) < |t[m].threads| + 1;
    }
  }

  lemma SweepGoesOn(was: Table, t: Table, nextPid: int, m: int, r: nat, x: int, t': Table, n: int)
    requires Tree(t, nextPid, {}) && m in was && m in t && t[m].next <= |t[m].threads| && !Ended(t[m].status)
    requires Picked(t, m, r, x, t') && SweptWithin(was, t, m, n) && Lives(was, m)
    ensures SweptWithin(was, t', m, n - 1) && m in t' && t'[m].status == t[m].status && !WasReleased(was, m, x)
  {
    forall y | WasReleased(was, m, y) ensures GoneWithin(t', m, y, n - 1) {
      GoneSooner(t, nextPid, m, r, x, t', y, n);
    }
    if t[m].next < |t[m].threads| { ChosenThere(t, nextPid, m, r, x, t'); }
  }

  // ---------------------------------------------------------------- a pass over the list

  /** Processes without parent do not end. */
  function Allowed(t: Table, m: int, c: Chance): Chance {
    if m in t && t[m].parent == NO_PROCESS_ID then c.(exits := false) else c
  }

  /** A released process leaves map and list in its turn, and stays released through the turns of others. */
  lemma ReleasedAfterTurn(s: State, i: nat, turn: Chance, kernelPid: int, x: int, ran: bool, via: Via, s': State,
                          p: int)
    requires Whole(s) && Turned(s, i, turn, kernelPid, x, ran, via, s')
    requires p in s.procs && s.procs[p].status == Released && !IsThread(s.procs[p])
    ensures p == s.scheduler[i] ==> p !in s'.procs && s'.scheduler == Without(s.scheduler, i)
    ensures p != s.scheduler[i] ==> StaysReleased(s.procs, s'.procs, p)
  {
    var m := s.scheduler[i];
    if p != m {
      PickedStays(s.procs, s.nextPid, m, via.passed, x, via.chosen, p);
      SwitchedStays(via.chosen, s.nextPid, x, turn, kernelPid, ran, via.switched, p);
    }
  }

  lemma PickedStays(t: Table, nextPid: int, m: int, r: nat, x: int, t': Table, p: int)
    requires Tree(t, nextPid, {}) && m in t && t[m].next <= |t[m].threads| && Picked(t, m, r, x, t') && p != m
    ensures StaysReleased(t, t', p)
  {
    assert Scheduling(t, m);
    if !Ended(t[m].status) && t[m].next < |t[m].threads| {
      forall y | y in Elements(Round(t, m)[..r]) ensures y in t && IsThread(t[y]) {
        var j :| 0 <= j < r && Round(t, m)[j] == y;
        RoundThere(t, nextPid, m, j);
        assert Scheduling(t, m) && Threaded(t, {}, y);
      }
    }
  }

  /** Of the processes that were released when the pass began, those with turns to come still are, the others gone. */
  ghost predicate PassedOver(was: Table, s: State, i: nat, list: seq<int>, k: nat) {
    && i <= |s.scheduler| && k <= |list| && s.scheduler[i..] == list[k..]
    && (forall q :: q in list[k..] ==> StaysReleased(was, s.procs, q))
    && (forall q :: q in list[..k] && q in was && was[q].status == Released ==> q !in s.procs)
  }

  /** Where the pass stands in the list after a turn, whether or not the entry at `i` was erased. */
  lemma PassPlaces(old': seq<int>, i: nat, list: seq<int>, k: nat, now: seq<int>)
    requires i < |old'| && k <= |list| && old'[i..] == list[k..]
    requires now == old' || now == Without(old', i)
    ensures k < |list| && old'[i] == list[k] && list[k..] == [list[k]] + list[k + 1..]
    ensures var i' := if |now| == |old'| then i + 1 else i; i' <= |now| && now[i'..] == list[k + 1..]
  {
    assert old'[i] == old'[i..][0] == list[k];
    assert old'[i + 1..] == old'[i..][1..] == list[k + 1..];
    assert Without(old', i)[i..] == old'[i + 1..];
  }

  lemma PassReleases(was: Table, s: State, i: nat, turn: Chance, kernelPid: int, x: int, ran: bool, via: Via, s': State,
                     q: int)
    requires Whole(s) && Turned(s, i, turn, kernelPid, x, ran, via, s')
    requires q in was && !IsThread(was[q]) && StaysReleased(was, s.procs, q)
    ensures q != s.scheduler[i] ==> StaysReleased(was, s'.procs, q)
    ensures q == s.scheduler[i] && was[q].status == Released ==> q !in s'.procs
  {
    if was[q].status == Released { ReleasedAfterTurn(s, i, turn, kernelPid, x, ran, via, s', q); }
  }

  lemma PassGoesOn(was: Table, s: State, i: nat, list: seq<int>, k: nat, turn: Chance, kernelPid: int, x: int,
                   ran: bool, via: Via, s': State)
    requires Whole(s) && PassedOver(was, s, i, list, k) && i < |s.scheduler|
    requires Turned(s, i, turn, kernelPid, x, ran, via, s') && Scheduled(was, list)
    ensures k < |list| && s.scheduler[i] == list[k]
    ensures PassedOver(was, s', if |s'.scheduler| == |s.scheduler| then i + 1 else i, list, k + 1)
  {
    PassPlaces(s.scheduler, i, list, k, s'.scheduler);
    forall q | q in list ensures q in was && !IsThread(was[q]) {}
    forall q | q in list[k + 1..] ensures StaysReleased(was, s'.procs, q) {
      var j :| k + 1 <= j < |list| && list[j] == q;
      assert q in list[k..] && q != list[k];
      PassReleases(was, s, i, turn, kernelPid, x, ran, via, s', q);
    }
    assert list[k] in list[k..];
    PassReleases(was, s, i, turn, kernelPid, x, ran, via, s', list[k]);
    forall q | q in list[..k + 1] && q in was && was[q].status == Released ensures q !in s'.procs {
      if q != list[k] {
        assert q in list[..k];
        assert s'.procs.Keys <= s.procs.Keys;
      }
    }
  }

  /**
   The scheduler goes through its list once: every process in it has one turn, and every process that was released when
   the pass began is gone from map and list, and on record.
   */
  method Pass(pm: ProcessManager, chances: seq<Chance>) returns (turned: seq<int>)
    requires pm.Valid() && |chances| == |pm.scheduler|
    modifies pm
    ensures pm.Valid() && turned == old(pm.scheduler) && Recorded(old(pm.procs), pm.procs, old(pm.gone), pm.gone)
    ensures forall q :: q in old(pm.procs) && old(pm.procs)[q].status == Released && !IsThread(old(pm.procs)[q]) ==>
              q !in pm.procs && q !in pm.scheduler && q in pm.gone
  {
    ghost var was, list, left := pm.procs, pm.scheduler, pm.gone;
    var i := 0;
    turned := [];
    while i < |pm.scheduler|
      invariant pm.Valid() && PassedOver(was, pm.Now(), i, list, |turned|) && turned == list[..|turned|]
      invariant Recorded(was, pm.procs, left, pm.gone)
      decreases |list| - |turned|
    {
      ghost var s := pm.Now();
      assert pm.scheduler[i] == pm.scheduler[i..][0];
      var m, before := pm.scheduler[i], |pm.scheduler|;
      ListedThere(pm.procs, pm.scheduler, i);
      var c := Allowed(pm.procs, m, chances[|turned|]);
      var x, ran, via := pm.Turn(i, c);
      PassGoesOn(was, s, i, list, |turned|, c, pm.kernelProcessID, x, ran, via, pm.Now());
      RecordedTwice(was, s.procs, pm.procs, left, s.gone, pm.gone);
      assert list[..|turned| + 1] == list[..|turned|] + [m];
      turned := turned + [m];
      if |pm.scheduler| == before { i := i + 1; }
    }
    assert list[|turned|..] == [] && list[..|turned|] == list;
    forall q | q in was && was[q].status == Released && !IsThread(was[q])
      ensures q !in pm.procs && q !in pm.scheduler && q in pm.gone
    {
      assert q in list;
    }
  }

  // ---------------------------------------------------------------- any sequence of operations

  datatype Op = Spawn(parent: int) | Fork(caller: int) | Exit(p: int) | Await(p: int, child: int)
              | Schedule(i: nat, chance: Chance)
  datatype Done = Created(pid: int) | Ran(x: int, ran: bool) | Called | Refused

  /** What an operation answers and what it makes of the state. */
  ghost predicate Stepped(s: State, kernelPid: int, op: Op, d: Done, s': State) {
    match op
    case Spawn(parent) =>
      if parent == NO_PROCESS_ID || Lives(s.procs, parent) then
        if |s.procs| + 1 > MAX_NO_PROCESS then
          && d == Created(NO_PROCESS_ID)
          && s' == s.(procs := WithChild(s.procs, s.nextPid, parent), nextPid := s.nextPid + 1)
        else
          && d == Created(s.nextPid)
          && s' == State(WithProcess(s.procs, s.nextPid, parent), s.scheduler + [s.nextPid], s.nextPid + 1, s.gone)
      else d == Refused && s' == s
    case Fork(caller) =>
      if Lives(s.procs, caller) && |s.procs| < MAX_NO_PROCESS then
        && d == Created(s.nextPid) && MainOf(s.procs, caller) in s.procs
        && s' == s.(procs := WithThread(s.procs, s.nextPid, MainOf(s.procs, caller)), nextPid := s.nextPid + 1)
      else d == Refused && s' == s
    case Exit(p) =>
      if Lives(s.procs, p) && s.procs[p].parent != NO_PROCESS_ID then
        && d == Called && Tree(s.procs, s.nextPid, {})
        && s' == s.(procs := Ending(s.procs, s.nextPid, p), gone := s.gone + s.procs[p].threads)
      else d == Refused && s' == s
    case Await(p, child) =>
      if Lives(s.procs, p) then
        && d == Called
        && s' == if 0 <= child < MAX_NO_PROCESS then
                   s.(procs := s.procs[p := s.procs[p].(status := WaitChild, waitFor := child)])
                 else s
      else d == Refused && s' == s
    case Schedule(i, chance) =>
      if i < |s.scheduler| then
        && d.Ran?
        && exists via :: Turned(s, i, Allowed(s.procs, s.scheduler[i], chance), kernelPid, d.x, d.ran, via, s')
      else d == Refused && s' == s
  }

  method Step(pm: ProcessManager, op: Op) returns (d: Done)
    requires pm.Valid()
    modifies pm
    ensures pm.Valid() && Stepped(old(pm.Now()), pm.kernelProcessID, op, d, pm.Now())
  {
    d := Refused;
    match op
    case Spawn(parent) =>
      if parent == NO_PROCESS_ID || (parent in pm.procs && !Ended(pm.procs[parent].status)) {
        var pid := pm.Create(parent);
        d := Created(pid);
      }
    case Fork(caller) =>
      if caller in pm.procs && !Ended(pm.procs[caller].status) && |pm.procs| < MAX_NO_PROCESS {
        var pid := pm.CreateThreadTask(caller);
        d := Created(pid);
      }
    case Exit(p) =>
      if p in pm.procs && !Ended(pm.procs[p].status) && pm.procs[p].parent != NO_PROCESS_ID {
        pm.Kill(p);
        d := Called;
      }
    case Await(p, child) =>
      if p in pm.procs && !Ended(pm.procs[p].status) {
        pm.WaitOnChild(p, child);
        d := Called;
      }
    case Schedule(i, chance) =>
      if i < |pm.scheduler| {
        ListedThere(pm.procs, pm.scheduler, i);
        var x, ran, via := pm.Turn(i, Allowed(pm.procs, pm.scheduler[i], chance));
        d := Ran(x, ran);
      }
  }

  /** The operation at place `k` leads from the state before it to the one after. */
  ghost predicate StepAt(kernelPid: int, ops: seq<Op>, done: seq<Done>, states: seq<State>, k: nat) {
    && k < |done| <= |ops| && |states| == |done| + 1
    && Stepped(states[k], kernelPid, ops[k], done[k], states[k + 1])
  }

  /** Every state of a run follows from the one before by its operation, with tree, list and log in agreement. */
  ghost predicate Traced(kernelPid: int, ops: seq<Op>, done: seq<Done>, states: seq<State>) {
    && |done| <= |ops| && |states| == |done| + 1
    && (forall k: nat :: k < |done| ==> StepAt(kernelPid, ops, done, states, k))
    && (forall k :: 0 <= k < |states| ==> Whole(states[k]))
  }

  lemma TracedOn(kernelPid: int, ops: seq<Op>, done: seq<Done>, states: seq<State>, d: Done, s: State)
    requires Traced(kernelPid, ops, done, states) && |done| < |ops|
    requires Stepped(states[|done|], kernelPid, ops[|done|], d, s) && Whole(s)
    ensures Traced(kernelPid, ops, done + [d], states + [s])
  {
    forall k: nat | k <= |done| ensures StepAt(kernelPid, ops, done + [d], states + [s], k) {
      if k < |done| { assert StepAt(kernelPid, ops, done, states, k); }
    }
  }

  /** An operation logs exactly those it takes out of the map. */
  lemma StepLogs(s: State, kernelPid: int, op: Op, d: Done, s': State)
    requires Whole(s) && Whole(s') && Stepped(s, kernelPid, op, d, s')
    ensures s.gone <= s'.gone && forall p :: p in s'.gone <==> p in s.gone || (p in s.procs && p !in s'.procs)
  {
    if op.Exit? && d == Called { EndingWhole(s.procs, s.nextPid, op.p, s.scheduler, s.gone); }
  }

  ghost predicate InSome(states: seq<State>, p: int) {
    exists k :: 0 <= k < |states| && p in states[k].procs
  }

  lemma TracedBefore(kernelPid: int, ops: seq<Op>, done: seq<Done>, states: seq<State>)
    requires Traced(kernelPid, ops, done, states) && |done| > 0
    ensures Traced(kernelPid, ops, done[..|done| - 1], states[..|done|])
  {
    var d, s := done[..|done| - 1], states[..|done|];
    forall k: nat | k < |d| ensures StepAt(kernelPid, ops, d, s, k) {
      assert StepAt(kernelPid, ops, done, states, k);
    }
  }

  /** The log of a run: those that were in the map at some time and are not at its end, each once. */
  lemma {:induction false} RunLogs(kernelPid: int, ops: seq<Op>, done: seq<Done>, states: seq<State>)
    requires Traced(kernelPid, ops, done, states)
    ensures var first, last := states[0], states[|done|];
            && first.gone <= last.gone && Distinct(last.gone)
            && forall p :: p in last.gone <==> p in first.gone || (InSome(states, p) && p !in last.procs)
    decreases |done|
  {
    if |done| > 0 {
      var n := |done| - 1;
      assert StepAt(kernelPid, ops, done, states, n);
      TracedBefore(kernelPid, ops, done, states);
      RunLogs(kernelPid, ops, done[..n], states[..n + 1]);
      StepLogs(states[n], kernelPid, ops[n], done[n], states[n + 1]);
      forall p ensures InSome(states, p) <==> InSome(states[..n + 1], p) || p in states[n + 1].procs {
        if InSome(states[..n + 1], p) {
          var k :| 0 <= k <= n && p in states[..n + 1][k].procs;
          assert p in states[k].procs;
        }
        if InSome(states, p) {
          var k :| 0 <= k < |states| && p in states[k].procs;
          assert k <= n ==> p in states[..n + 1][k].procs;
        }
      }
      assert forall p :: InSome(states[..n + 1], p) && p !in states[n].procs ==> p in states[n].gone;
    }
  }

  /** Over every run: each operation does what it should, and whoever leaves the map does so once and for good. */
  method Execute(pm: ProcessManager, ops: seq<Op>) returns (done: seq<Done>, ghost states: seq<State>)
    requires pm.Valid()
    modifies pm
    ensures |done| == |ops| && Traced(pm.kernelProcessID, ops, done, states)
    ensures pm.Valid() && states[0] == old(pm.Now()) && states[|ops|] == pm.Now()
    ensures old(pm.gone) <= pm.gone && Distinct(pm.gone)
    ensures forall p :: p in pm.gone <==> p in old(pm.gone) || (InSome(states, p) && p !in pm.procs)
  {
    done, states := [], [pm.Now()];
    for i := 0 to |ops|
      invariant |done| == i && Traced(pm.kernelProcessID, ops, done, states) && pm.Valid()
      invariant states[0] == old(pm.Now()) && states[i] == pm.Now()
    {
      var d := Step(pm, ops[i]);
      TracedOn(pm.kernelProcessID, ops, done, states, d, pm.Now());
      done, states := done + [d], states + [pm.Now()];
    }
    RunLogs(pm.kernelProcessID, ops, done, states);
  }

  // ---------------------------------------------------------------- who is ready, or whose wait is over, runs next

  /** The operation ends `x` or its process, makes it wait, or is its turn. */
  predicate Touches(t: Table, op: Op, d: Done, x: int)
    requires x in t
  {
    match op
    case Exit(p) => p == x || p == t[x].owner
    case Await(p, _) => p == x
    case Schedule(_, _) => d.Ran? && (d.x == x || d.x == t[x].owner)
    case _ => false
  }

  /** The turn has passed over released threads and moved the place of `m`; all else is as it was. */
  lemma PickedSame(t: Table, nextPid: int, m: int, r: nat, x: int, t': Table, y: int)
    requires Tree(t, nextPid, {}) && m in t && t[m].next <= |t[m].threads| && Picked(t, m, r, x, t')
    requires y in t && t[y].status != Released
    ensures y in t' && t'[y] == t[y].(threads := t'[y].threads, next := t'[y].next)
  {
    if !Ended(t[m].status) && t[m].next < |t[m].threads| {
      forall z | z in Elements(Round(t, m)[..r]) ensures z in t && t[z].status == Released {}
    }
  }

  /** Whoever lives keeps status and wait through a turn of another. */
  lemma SwitchedSpares(t: Table, nextPid: int, x: int, turn: Chance, kernelPid: int, ran: bool, t': Table, y: int)
    requires x in t && Switched(t, nextPid, x, turn, kernelPid, ran, t')
    requires Lives(t, y) && y != x && t[y].owner != x
    ensures LivesOn(t, t', y)
  {
    var t1 := Awakened(t, x, turn.ready, kernelPid);
    assert LivesOn(t, t1, y);
    if ran && turn.exits { EndingSparesLiving(t1, nextPid, x, y); }
  }

  ghost predicate SameWait(t: Table, t': Table, y: int) {
    && y in t && y in t' && t'[y].status == t[y].status && t'[y].waitFor == t[y].waitFor && t'[y].owner == t[y].owner
  }

  lemma TurnSpares(s: State, i: nat, turn: Chance, kernelPid: int, x: int, ran: bool, via: Via, s': State, y: int)
    requires Whole(s) && Turned(s, i, turn, kernelPid, x, ran, via, s')
    requires Lives(s.procs, y) && y != x && s.procs[y].owner != x
    ensures SameWait(s.procs, s'.procs, y)
  {
    PickedSame(s.procs, s.nextPid, s.scheduler[i], via.passed, x, via.chosen, y);
    SwitchedSpares(via.chosen, s.nextPid, x, turn, kernelPid, ran, via.switched, y);
  }

  /** Whoever lives keeps status and wait through every operation that does not touch it. */
  lemma Undisturbed(s: State, kernelPid: int, op: Op, d: Done, s': State, y: int)
    requires Whole(s) && Stepped(s, kernelPid, op, d, s') && Lives(s.procs, y) && !Touches(s.procs, op, d, y)
    ensures SameWait(s.procs, s'.procs, y)
  {
    match op
    case Exit(p) =>
      if d == Called { EndingSparesLiving(s.procs, s.nextPid, p, y); }
    case Schedule(i, chance) =>
      if d.Ran? {
        var c := Allowed(s.procs, s.scheduler[i], chance);
        var via :| Turned(s, i, c, kernelPid, d.x, d.ran, via, s');
        TurnSpares(s, i, c, kernelPid, d.x, d.ran, via, s', y);
      }
    case _ =>
  }

  /** `x` waits for a child that has ended, or has ended and gone. */
  ghost predicate ChildHasEnded(s: State, kernelPid: int, x: int) {
    && x in s.procs && s.procs[x].status == WaitChild
    && var c := s.procs[x].waitFor;
    && 0 <= c < s.nextPid
    && (c in s.procs ==>
          && s.procs[c].parent == x && s.procs[c].status == Terminated
          && (IsThread(s.procs[c]) ==> x != kernelPid))
  }

  /** `c` has ended and is a child of `y`, and of the kernel's own process no thread. */
  ghost predicate EndedUnder(t: Table, kernelPid: int, c: int, y: int) {
    c in t && t[c].parent == y && t[c].status == Terminated && (IsThread(t[c]) ==> t[c].owner == y != kernelPid)
  }

  /** The turn of another leaves it as it is, or the kernel's own process releases it in its own turn. */
  lemma SwitchedEnded(t: Table, nextPid: int, x: int, turn: Chance, kernelPid: int, ran: bool, t': Table, c: int,
                      y: int)
    requires x in t && Switched(t, nextPid, x, turn, kernelPid, ran, t') && EndedUnder(t, kernelPid, c, y)
    requires y in t && y != x && t[y].owner != x
    ensures EndedUnder(t', kernelPid, c, y) ||
            (c == x && !IsThread(t[x]) && x in t' && t' == WithStatus(t, x, Released))
  {
    if c != x {
      var t1 := Awakened(t, x, turn.ready, kernelPid);
      assert SameStanding(t, t1, c) && t1[y].owner == t[y].owner;
      if ran && turn.exits { EndingSpares(t1, nextPid, x, c); }
    }
  }

  lemma TurnEnded(s: State, i: nat, turn: Chance, kernelPid: int, x: int, ran: bool, via: Via, s': State, c: int,
                  y: int)
    requires Whole(s) && Turned(s, i, turn, kernelPid, x, ran, via, s') && EndedUnder(s.procs, kernelPid, c, y)
    requires Lives(s.procs, y) && y != x && s.procs[y].owner != x
    ensures c in s'.procs ==> EndedUnder(s'.procs, kernelPid, c, y)
  {
    PickedSame(s.procs, s.nextPid, s.scheduler[i], via.passed, x, via.chosen, c);
    PickedSame(s.procs, s.nextPid, s.scheduler[i], via.passed, x, via.chosen, y);
    SwitchedEnded(via.chosen, s.nextPid, x, turn, kernelPid, ran, via.switched, c, y);
  }

  /** Numbers that are used up are not given again. */
  lemma NeverBack(s: State, kernelPid: int, op: Op, d: Done, s': State, c: int)
    requires Whole(s) && Stepped(s, kernelPid, op, d, s') && c < s.nextPid && c !in s.procs
    ensures c !in s'.procs && s.nextPid <= s'.nextPid
  {
    if op.Exit? && d == Called { EndingLeft(s.procs, s.nextPid, op.p); }
    if op.Spawn? { assert WithChild(s.procs, s.nextPid, op.parent).Keys == s.procs.Keys; }
  }

  lemma EndedStays(s: State, kernelPid: int, op: Op, d: Done, s': State, c: int, y: int)
    requires Whole(s) && Stepped(s, kernelPid, op, d, s') && EndedUnder(s.procs, kernelPid, c, y)
    requires Lives(s.procs, y) && !Touches(s.procs, op, d, y)
    ensures c in s'.procs ==> EndedUnder(s'.procs, kernelPid, c, y)
  {
    match op
    case Exit(p) =>
      if d == Called { EndingSpares(s.procs, s.nextPid, p, c); }
    case Schedule(i, chance) =>
      if d.Ran? {
        var a := Allowed(s.procs, s.scheduler[i], chance);
        var via :| Turned(s, i, a, kernelPid, d.x, d.ran, via, s');
        TurnEnded(s, i, a, kernelPid, d.x, d.ran, via, s', c, y);
      }
    case _ =>
  }

  /** A wait for a child that has ended stays so until the waiting process has its turn. */
  lemma StaysEnded(s: State, kernelPid: int, op: Op, d: Done, s': State, x: int)
    requires Whole(s) && Stepped(s, kernelPid, op, d, s') && ChildHasEnded(s, kernelPid, x)
    requires !Touches(s.procs, op, d, x)
    ensures ChildHasEnded(s', kernelPid, x)
  {
    Undisturbed(s, kernelPid, op, d, s', x);
    var c := s.procs[x].waitFor;
    if c in s.procs {
      assert Threaded(s.procs, {}, c);
      EndedStays(s, kernelPid, op, d, s', c, x);
    } else {
      NeverBack(s, kernelPid, op, d, s', c);
    }
  }

  /** When the child exits for which a process waits, that wait is over. */
  lemma ExitEndsWait(s: State, kernelPid: int, c: int, s': State)
    requires Whole(s) && Stepped(s, kernelPid, Exit(c), Called, s')
    requires var x := s.procs[c].parent;
             && Lives(s.procs, x) && s.procs[x].status == WaitChild && s.procs[x].waitFor == c
             && (IsThread(s.procs[c]) ==> x != kernelPid)
    ensures ChildHasEnded(s', kernelPid, s.procs[c].parent)
  {
    var x := s.procs[c].parent;
    assert Rooted(s.procs, {}, c) && Threaded(s.procs, {}, x);
    EndingSparesLiving(s.procs, s.nextPid, c, x);
    EndingKeepsParent(s.procs, s.nextPid, c);
  }

  lemma EndingKeepsParent(t: Table, nextPid: int, p: int)
    requires Tree(t, nextPid, {}) && Lives(t, p) && t[p].parent != NO_PROCESS_ID
    ensures var t' := Ending(t, nextPid, p);
            p in t' && t'[p].parent == t[p].parent && t'[p].status == Terminated && t'[p].owner == t[p].owner
  {
    Marked(t, nextPid, {}, p);
    assert {} + {p} == {p};
    var t2 := ThreadsEnded(WithStatus(t, p, Terminated), nextPid, p);
    assert Bare(t2[p]) == Bare(WithStatus(t, p, Terminated)[p]);
    assert Listing(t2, nextPid, {p}, p);
  }

  /** A process that is ready, or waits for a child that has ended. */
  ghost predicate Due(s: State, kernelPid: int, x: int) {
    x in s.procs && (s.procs[x].status == Run || ChildHasEnded(s, kernelPid, x))
  }

  ghost predicate DueIn(t: Table, x: int) {
    x in t && (t[x].status == Run
               || (t[x].status == WaitChild
                   && (t[x].waitFor !in t || (t[t[x].waitFor].parent == x && t[t[x].waitFor].status == Terminated))))
  }

  lemma DueSwitched(t: Table, nextPid: int, x: int, turn: Chance, kernelPid: int, ran: bool, t': Table)
    requires DueIn(t, x) && Switched(t, nextPid, x, turn, kernelPid, ran, t')
    ensures ran
    ensures !turn.exits ==> x in t' && t'[x].status == Run
    ensures !turn.exits && t[x].status == WaitChild && 0 <= t[x].waitFor != x ==>
              var c := t[x].waitFor; c !in t'[x].children && (c in t' ==> t'[c].status == Released)
  {
    CasesHold(t, x, turn.ready, kernelPid);
  }

  lemma DueTurn(s: State, i: nat, turn: Chance, kernelPid: int, x: int, ran: bool, via: Via, s': State)
    requires Whole(s) && Turned(s, i, turn, kernelPid, x, ran, via, s') && Due(s, kernelPid, x)
    ensures DueIn(via.chosen, x) && via.chosen[x].status == s.procs[x].status
    ensures via.chosen[x].waitFor == s.procs[x].waitFor
  {
    var m, t, c := s.scheduler[i], via.chosen, s.procs[x].waitFor;
    PickedSame(s.procs, s.nextPid, m, via.passed, x, t, x);
    if c in s.procs && s.procs[x].status == WaitChild { PickedSame(s.procs, s.nextPid, m, via.passed, x, t, c); }
    assert t.Keys <= s.procs.Keys by { PickedFewer(s.procs, m, via.passed, x, t); }
  }

  lemma PickedFewer(t: Table, m: int, r: nat, x: int, t': Table)
    requires m in t && t[m].next <= |t[m].threads| && Picked(t, m, r, x, t')
    ensures t'.Keys <= t.Keys
  {
  }

  /** It runs in its turn; of the child it waited for, it is rid. */
  lemma DueRuns(s: State, kernelPid: int, i: nat, chance: Chance, d: Done, s': State, x: int)
    requires Whole(s) && Stepped(s, kernelPid, Schedule(i, chance), d, s')
    requires Due(s, kernelPid, x) && d.Ran? && d.x == x
    ensures d.ran
    ensures !chance.exits ==> x in s'.procs && s'.procs[x].status == Run
    ensures !chance.exits && s.procs[x].status == WaitChild ==>
              var c := s.procs[x].waitFor;
              c !in s'.procs[x].children && (c in s'.procs ==> s'.procs[c].status == Released)
  {
    var a := Allowed(s.procs, s.scheduler[i], chance);
    var via :| Turned(s, i, a, kernelPid, d.x, d.ran, via, s');
    DueTurn(s, i, a, kernelPid, x, d.ran, via, s');
    DueSwitched(via.chosen, s.nextPid, x, a, kernelPid, d.ran, via.switched);
  }

  ghost predicate Untouched(ops: seq<Op>, done: seq<Done>, states: seq<State>, from: nat, to: nat, x: int)
    requires to <= |done| <= |ops| && |done| < |states|
  {
    forall k :: from <= k < to ==> x in states[k].procs && !Touches(states[k].procs, ops[k], done[k], x)
  }

  lemma DueStays(s: State, kernelPid: int, op: Op, d: Done, s': State, x: int)
    requires Whole(s) && Stepped(s, kernelPid, op, d, s') && Due(s, kernelPid, x) && !Touches(s.procs, op, d, x)
    ensures Due(s', kernelPid, x)
  {
    Undisturbed(s, kernelPid, op, d, s', x);
    if s.procs[x].status != Run { StaysEnded(s, kernelPid, op, d, s', x); }
  }

  /** One operation on the way to the next turn. */
  lemma DueOnce(kernelPid: int, ops: seq<Op>, done: seq<Done>, states: seq<State>, from: nat, to: nat, x: int)
    requires Traced(kernelPid, ops, done, states) == true
    requires from < to <= |done| <= |ops| && |states| == |done| + 1
    requires Due(states[from], kernelPid, x) == true && Untouched(ops, done, states, from, to, x) == true
    ensures Due(states[from + 1], kernelPid, x) == true && Untouched(ops, done, states, from + 1, to, x) == true
  {
    TracedAt(kernelPid, ops, done, states, from);
    DueStays(states[from], kernelPid, ops[from], done[from], states[from + 1], x);
  }

  lemma {:induction false} StaysDue(kernelPid: int, ops: seq<Op>, done: seq<Done>, states: seq<State>, from: nat,
                                    to: nat, x: int)
    requires Traced(kernelPid, ops, done, states) == true
    requires from <= to <= |done| <= |ops| && |states| == |done| + 1
    requires Due(states[from], kernelPid, x) == true && Untouched(ops, done, states, from, to, x) == true
    ensures Due(states[to], kernelPid, x) == true
    decreases if from <= to then to - from else 0
  {
    if from < to {
      DueOnce(kernelPid, ops, done, states, from, to, x);
      StaysDue(kernelPid, ops, done, states, from + 1, to, x);
    }
  }

  lemma TracedAt(kernelPid: int, ops: seq<Op>, done: seq<Done>, states: seq<State>, k: nat)
    requires Traced(kernelPid, ops, done, states) == true && k < |done|
    ensures k < |ops| && k + 1 < |states| && Whole(states[k])
    ensures Stepped(states[k], kernelPid, ops[k], done[k], states[k + 1])
  {
    assert StepAt(kernelPid, ops, done, states, k);
  }

  /**
   In any run, a process that is ready, as a new one is, or that waits for a child that has ended, runs in its next
   turn, unless it is ended or made to wait before.
   */
  lemma NextTurnRuns(kernelPid: int, ops: seq<Op>, done: seq<Done>, states: seq<State>, from: nat, to: nat, x: int)
    requires Traced(kernelPid, ops, done, states) && from <= to < |done| && Due(states[from], kernelPid, x)
    requires Untouched(ops, done, states, from, to, x) && ops[to].Schedule? && done[to].Ran? && done[to].x == x
    ensures done[to].ran
  {
    StaysDue(kernelPid, ops, done, states, from, to, x);
    TracedAt(kernelPid, ops, done, states, to);
    var s := states[to];
    DueRuns(s, kernelPid, ops[to].i, ops[to].chance, done[to], states[to + 1], x);
  }

  /** Whoever runs and is to exit in its turn, its process having a parent, has ended when the turn is over. */
  lemma ExitsInTurn(s: State, kernelPid: int, i: nat, chance: Chance, d: Done, s': State)
    requires Whole(s) && Stepped(s, kernelPid, Schedule(i, chance), d, s') && d.Ran? && d.ran && chance.exits
    requires s.scheduler[i] in s.procs && s.procs[s.scheduler[i]].parent != NO_PROCESS_ID
    ensures !Lives(s'.procs, d.x)
  {
    var a := Allowed(s.procs, s.scheduler[i], chance);
    var via :| Turned(s, i, a, kernelPid, d.x, d.ran, via, s');
    EndingLeft(Awakened(via.chosen, d.x, a.ready, kernelPid), s.nextPid, d.x);
  }

  /** Whoever has just been created is ready. */
  lemma CreatedDue(s: State, kernelPid: int, op: Op, d: Done, s': State)
    requires Stepped(s, kernelPid, op, d, s') && d.Created? && d.pid != NO_PROCESS_ID
    ensures Due(s', kernelPid, d.pid)
  {
  }
}
