/** Runs of requests, releases and payload writes by clients of the kernel heap that use only what they hold. */
module HeapRuns {
  import opened Bits
  import opened Trackers
  import opened HeapBlocks
  import opened KernelHeap

  /** `Release` and `Fill` name what was handed out by its place in the client's list. */
  datatype Op = Request(n: nat, align: nat) | Give(i: nat) | Fill(i: nat, forged: map<nat, Tracker>)
  datatype Done = Got(outcome: Outcome) | Gave(freed: Freed) | Filled | NotHeld
  datatype Held = Held(addr: nat, n: nat)

  /** The heap and what its clients hold, `at[i]` being the block of `held[i]`. */
  datatype State = State(heap: Arena, held: seq<Held>, at: seq<nat>)

  function Without<T>(s: seq<T>, i: nat): seq<T>
    requires i < |s|
  {
    s[..i] + s[i + 1..]
  }

  /** A request is served by first fit, and what is handed out is held from then on. */
  ghost predicate Requested(s: State, n: nat, align: nat, k: nat, r: Outcome, t: State) {
    && Served(Searched(s.heap), n, align, k, r, t.heap)
    && (if r.Address? then
          t.held == s.held + [Held(r.value, n)] && t.at == s.at + [Searched(s.heap).free[k]]
        else
          t.held == s.held && t.at == s.at)
  }

  /** The owner has written the payload, and nothing else has changed. */
  ghost predicate Scrawled(s: State, h: Held, forged: map<nat, Tracker>, t: State) {
    && t.heap.mem == Scribbled(s.heap.mem, h.addr, h.addr + h.n, forged)
    && t == s.(heap := s.heap.(mem := t.heap.mem))
  }

  /** What an operation answers and what it makes of heap and clients. */
  ghost predicate Stepped(s: State, op: Op, d: Done, t: State) {
    match op
    case Request(n, align) =>
      && d.Got?
      && if align != 0 && forall e: nat :: align != Power(e) then d.outcome == BadAlign && t == s
         else exists k :: Requested(s, n, align, k, d.outcome, t)
    case Give(i) =>
      if i < |s.held| then
        && i < |s.at| && s.at[i] in s.heap.blocks
        && d == Gave(Success) && t == State(Release(s.heap, s.at[i]), Without(s.held, i), Without(s.at, i))
      else
        d == NotHeld && t == s
    case Fill(i, forged) =>
      if i < |s.held| then
        d == Filled && Scrawled(s, s.held[i], forged, t)
      else
        d == NotHeld && t == s
  }

  /** The live blocks are those that are held. */
  ghost predicate Holding(blocks: map<nat, Block>, held: seq<Held>, at: seq<nat>) {
    && |at| == |held|
    && (forall i :: 0 <= i < |held| ==> LiveReturn(blocks, at[i], held[i].addr) && blocks[at[i]].request == held[i].n)
    && (forall i, j :: 0 <= i < j < |at| ==> at[i] != at[j])
    && (forall a :: a in blocks && blocks[a].Live? ==> a in at)
  }

  ghost predicate Apart(p: Held, q: Held) {
    p.addr + p.n <= q.addr || q.addr + q.n <= p.addr
  }

  ghost predicate AllApart(held: seq<Held>) {
    forall i, j :: 0 <= i < j < |held| ==> Apart(held[i], held[j])
  }

  ghost predicate Kept(s: State) {
    Ready(s.heap) && Holding(s.heap.blocks, s.held, s.at) && AllApart(s.held)
  }

  lemma HeldApart(heap: Arena, held: seq<Held>, at: seq<nat>)
    requires Ready(heap) && Holding(heap.blocks, held, at)
    ensures AllApart(held)
  {
    forall i, j | 0 <= i < j < |held| ensures Apart(held[i], held[j]) {
      assert LiveReturn(heap.blocks, at[i], held[i].addr) && LiveReturn(heap.blocks, at[j], held[j].addr);
      PayloadsApart(heap, at[i], at[j], held[i].addr, held[j].addr);
    }
  }

  lemma RequestHolds(s: State, n: nat, align: nat, k: nat, r: Outcome, t: State)
    requires Kept(s) && !(s.heap.blocks != map[] && s.heap.free == []) && Requested(s, n, align, k, r, t)
    ensures Holding(t.heap.blocks, t.held, t.at)
  {
    SearchedSound(s.heap);
    if r.Address? {
      ServedApart(Searched(s.heap), n, align, k, r, t.heap);
      OneMoreHeld(s.heap.blocks, t.heap.blocks, s.held, s.at, Searched(s.heap).free[k], Held(r.value, n));
    }
  }

  lemma OneMoreHeld(was: map<nat, Block>, now: map<nat, Block>, held: seq<Held>, at: seq<nat>, a: nat, h: Held)
    requires Holding(was, held, at) && OneMoreLive(was, now, a) && (a in was ==> !was[a].Live?)
    requires LiveReturn(now, a, h.addr) && now[a].request == h.n
    ensures Holding(now, held + [h], at + [a])
  {
    forall x | x in now && now[x].Live? ensures x in at + [a] {
      if x != a { assert x in at; }
    }
  }

  lemma ReleaseHolds(s: State, i: nat)
    requires Holding(s.heap.blocks, s.held, s.at) && i < |s.held|
    ensures Holding(Release(s.heap, s.at[i]).blocks, Without(s.held, i), Without(s.at, i))
  {
    var blocks, at' := Release(s.heap, s.at[i]).blocks, Without(s.at, i);
    forall a | a in blocks && blocks[a].Live? ensures a in at' {
      var j :| 0 <= j < |s.at| && s.at[j] == a;
      WithoutKeeps(s.at, i, j);
    }
    forall k | 0 <= k < |at'|
      ensures at'[k] != s.at[i]
      ensures LiveReturn(blocks, at'[k], Without(s.held, i)[k].addr)
      ensures blocks[at'[k]].request == Without(s.held, i)[k].n
    {
      StaysHeld(s, i, k);
    }
  }

  lemma StaysHeld(s: State, i: nat, k: nat)
    requires Holding(s.heap.blocks, s.held, s.at) && i < |s.held| && k < |s.held| - 1
    ensures var a, h := Without(s.at, i)[k], Without(s.held, i)[k];
            && a != s.at[i] && LiveReturn(s.heap.blocks, a, h.addr) && s.heap.blocks[a].request == h.n
  {
    var j := if k < i then k else k + 1;
    assert LiveReturn(s.heap.blocks, s.at[j], s.held[j].addr);
    assert s.at[j] != s.at[i];
  }

  lemma WithoutKeeps<T>(s: seq<T>, i: nat, j: nat)
    requires i < |s| && j < |s| && i != j
    ensures s[j] in Without(s, i)
  {
    assert Without(s, i)[if j < i then j else j - 1] == s[j];
  }

  /** A run has used up the heap exactly when the list is empty and something is held. */
  lemma ListedOrHeld(s: State)
    requires Kept(s)
    ensures s.heap.blocks != map[] && s.heap.free == [] <==> Next(s.heap.free, 0) == 0 && s.held != []
  {
    var blocks := s.heap.blocks;
    if blocks != map[] && s.heap.free == [] { assert blocks[s.heap.start].Live?; }
    if s.held != [] { assert LiveReturn(blocks, s.at[0], s.held[0].addr); }
  }

  method Serve(h: Heap, n: nat, align: nat, held: seq<Held>, ghost at: seq<nat>)
    returns (d: Done, held': seq<Held>, ghost at': seq<nat>)
    requires h.Valid() && !h.Exhausted() && Kept(State(h.Now(), held, at)) && n + 20 + align <= 0x1_0000_0000
    modifies h
    ensures h.Valid() && Kept(State(h.Now(), held', at'))
    ensures Stepped(State(old(h.Now()), held, at), Request(n, align), d, State(h.Now(), held', at'))
  {
    ghost var s := State(h.Now(), held, at);
    var r, k := h.Allocate(n, align);
    d, held', at' := Got(r), held, at;
    if r == BadAlign {
      assert forall e: nat :: align != Power(e);
      return;
    }
    if r.Address? { held', at' := held + [Held(r.value, n)], at + [Searched(s.heap).free[k]]; }
    ghost var t := State(h.Now(), held', at');
    assert Requested(s, n, align, k, r, t);
    RequestHolds(s, n, align, k, r, t);
    HeldApart(t.heap, held', at');
  }

  method TakeBack(h: Heap, i: nat, held: seq<Held>, ghost at: seq<nat>)
    returns (d: Done, held': seq<Held>, ghost at': seq<nat>)
    requires h.Valid() && Kept(State(h.Now(), held, at)) && i < |held|
    modifies h
    ensures h.Valid() && Kept(State(h.Now(), held', at'))
    ensures Stepped(State(old(h.Now()), held, at), Give(i), d, State(h.Now(), held', at'))
  {
    ghost var s := State(h.Now(), held, at);
    ReleaseHolds(s, i);
    assert LiveReturn(s.heap.blocks, at[i], held[i].addr);
    LiveStands(s.heap, at[i], held[i].addr);
    var r := h.DeAllocate(held[i].addr, FreeTracker(0, 0, 0));
    d, held', at' := Gave(r), Without(held, i), Without(at, i);
    HeldApart(h.Now(), held', at');
  }

  method Scribble(h: Heap, p: Held, forged: map<nat, Tracker>, ghost a: nat, ghost s: State)
    requires h.Valid() == true && s.heap == h.Now()
    requires LiveReturn(h.blocks, a, p.addr) && p.n <= h.blocks[a].request
    modifies h
    ensures h.Valid() == true && Scrawled(s, p, forged, s.(heap := h.Now()))
  {
    h.WritePayload(p.addr, p.n, forged, a);
  }

  lemma ScrawledKeeps(s: State, h: Held, forged: map<nat, Tracker>, t: State)
    requires Kept(s) && Ready(t.heap) && Scrawled(s, h, forged, t)
    ensures Kept(t)
  {
  }

  /** One call by a client that frees and writes only what it holds. */
  method Step(h: Heap, op: Op, held: seq<Held>, ghost at: seq<nat>)
    returns (d: Done, held': seq<Held>, ghost at': seq<nat>)
    requires h.Valid() && Kept(State(h.Now(), held, at)) == true
    requires op.Request? ==> !h.Exhausted() && op.n + 20 + op.align <= 0x1_0000_0000
    modifies h
    ensures h.Valid() && Kept(State(h.Now(), held', at'))
    ensures Stepped(State(old(h.Now()), held, at), op, d, State(h.Now(), held', at'))
  {
    d, held', at' := NotHeld, held, at;
    match op
    case Request(n, align) =>
      d, held', at' := Serve(h, n, align, held, at);
    case Give(i) =>
      if i < |held| { d, held', at' := TakeBack(h, i, held, at); }
    case Fill(i, forged) =>
      if i < |held| {
        ghost var s := State(h.Now(), held, at);
        Scribble(h, held[i], forged, at[i], s);
        ScrawledKeeps(s, held[i], forged, State(h.Now(), held, at));
        d := Filled;
      }
  }

  /** The operations took the heap from each state to the next, and every state is as it should be. */
  ghost predicate Traced(ops: seq<Op>, done: seq<Done>, states: seq<State>) {
    && |done| <= |ops| && |states| == |done| + 1
    && (forall k :: 0 <= k < |done| ==> Stepped(states[k], ops[k], done[k], states[k + 1]))
    && (forall k :: 0 <= k < |states| ==> Kept(states[k]))
  }

  lemma TracedOn(ops: seq<Op>, done: seq<Done>, states: seq<State>, d: Done, t: State)
    requires Traced(ops, done, states) && |done| < |ops|
    requires Stepped(states[|done|], ops[|done|], d, t) && Kept(t)
    ensures Traced(ops, done + [d], states + [t])
  {
  }

  /** No operation of a run meets a checksum that fails. */
  lemma NoneCorrupted(ops: seq<Op>, done: seq<Done>, states: seq<State>, k: nat)
    requires Traced(ops, done, states) && k < |done|
    ensures done[k] != Got(Corrupted) && (done[k].Gave? ==> done[k].freed == Success)
  {
    assert Stepped(states[k], ops[k], done[k], states[k + 1]);
  }

  /**
   Over every run, up to a request to a heap that is used up: every operation answers as it should, no check fails, and
   no two payloads that are held at any time meet.
   */
  method Run(h: Heap, ops: seq<Op>) returns (done: seq<Done>, held: seq<Held>, ghost states: seq<State>)
    requires h.Valid() && h.blocks == map[]
    requires forall i :: 0 <= i < |ops| && ops[i].Request? ==> ops[i].n + 20 + ops[i].align <= 0x1_0000_0000
    modifies h
    ensures Traced(ops, done, states) && (|done| < |ops| ==> h.Exhausted() && ops[|done|].Request?)
    ensures states[0] == State(old(h.Now()), [], [])
    ensures h.Valid() && states[|done|].heap == h.Now() && states[|done|].held == held
    ensures forall k :: 0 <= k < |done| ==> done[k] != Got(Corrupted) && (done[k].Gave? ==> done[k].freed == Success)
  {
    done, held := [], [];
    ghost var at: seq<nat> := [];
    states := [State(h.Now(), [], [])];
    while |done| < |ops| && !(h.head == 0 && held != [] && ops[|done|].Request?)
      invariant Traced(ops, done, states) && h.Valid()
      invariant states[|done|] == State(h.Now(), held, at) && states[0] == State(old(h.Now()), [], [])
      decreases |ops| - |done|
    {
      ListedOrHeld(states[|done|]);
      var d;
      d, held, at := Step(h, ops[|done|], held, at);
      TracedOn(ops, done, states, d, State(h.Now(), held, at));
      done, states := done + [d], states + [State(h.Now(), held, at)];
    }
    ListedOrHeld(states[|done|]);
    forall k | 0 <= k < |done| ensures done[k] != Got(Corrupted) && (done[k].Gave? ==> done[k].freed == Success) {
      NoneCorrupted(ops, done, states, k);
    }
  }
}
