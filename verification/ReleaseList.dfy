/** The short list of clean cached sectors, ascending by rank, from which the sector cache evicts. */
module ReleaseList {

  /** A tenth of the cache, truncated. */
  const MAX_RELEASE_LIST := 3

  datatype Ranked = Ranked(sector: nat, rank: real)

  predicate Releasable(release: seq<Ranked>, s: nat) {
    exists i :: 0 <= i < |release| && release[i].sector == s
  }

  ghost predicate Ascending(release: seq<Ranked>) {
    forall i, j :: 0 <= i < j < |release| ==> release[i].rank <= release[j].rank
  }

  predicate NoRepeat(release: seq<Ranked>) {
    forall i, j :: 0 <= i < j < |release| ==> release[i].sector != release[j].sector
  }

  function SortedInsert(release: seq<Ranked>, node: Ranked): seq<Ranked> {
    if release == [] || node.rank < release[0].rank then [node] + release
    else [release[0]] + SortedInsert(release[1..], node)
  }

  /** A node goes in front of the first that ranks higher. */
  lemma {:induction false} InsertPlace(release: seq<Ranked>, node: Ranked) returns (p: nat)
    ensures p <= |release| && SortedInsert(release, node) == release[..p] + [node] + release[p..]
    ensures Ascending(release) ==> Ascending(SortedInsert(release, node))
  {
    if release == [] || node.rank < release[0].rank {
      p := 0;
    } else {
      p := InsertPlace(release[1..], node);
      p := p + 1;
      assert release[..p] == [release[0]] + release[1..][..p - 1];
      assert release[p..] == release[1..][p - 1..];
      if Ascending(release) {
        var rest := SortedInsert(release[1..], node);
        assert forall r :: r in rest ==> r == node || r in release[1..];
        forall i | 0 <= i < |rest| ensures release[0].rank <= rest[i].rank { assert rest[i] in rest; }
      }
    }
  }

  /** Where the entries of a list are once a node is put in at place `p`. */
  lemma PlacesAround(release: seq<Ranked>, node: Ranked, p: nat, now: seq<Ranked>)
    requires p <= |release| && now == release[..p] + [node] + release[p..]
    ensures |now| == |release| + 1 && now[p] == node
    ensures forall i :: 0 <= i < p ==> now[i] == release[i]
    ensures forall i :: p < i < |now| ==> now[i] == release[i - 1]
  {
  }

  lemma PlaceRepeats(release: seq<Ranked>, node: Ranked, p: nat, now: seq<Ranked>)
    requires p <= |release| && now == release[..p] + [node] + release[p..]
    ensures NoRepeat(now) <==> NoRepeat(release) && !Releasable(release, node.sector)
  {
    PlacesAround(release, node, p, now);
    if NoRepeat(now) {
      forall i | 0 <= i < |release| ensures release[i].sector != node.sector {
        assert now[if i < p then i else i + 1] == release[i];
      }
      forall i, j | 0 <= i < j < |release| ensures release[i].sector != release[j].sector {
        assert now[if i < p then i else i + 1] == release[i] && now[if j < p then j else j + 1] == release[j];
      }
    }
  }

  lemma SortedInsertSpec(release: seq<Ranked>, node: Ranked)
    requires Ascending(release)
    ensures Ascending(SortedInsert(release, node))
    ensures |SortedInsert(release, node)| == |release| + 1
    ensures forall r :: r in SortedInsert(release, node) <==> r in release || r == node
    ensures NoRepeat(SortedInsert(release, node)) <==> NoRepeat(release) && !Releasable(release, node.sector)
  {
    var p := InsertPlace(release, node);
    PlaceRepeats(release, node, p, SortedInsert(release, node));
    assert release == release[..p] + release[p..];
  }

  /** The visit of one cached sector while the list is built. */
  function Visit(release: seq<Ranked>, dirty: set<nat>, s: nat, rank: real): seq<Ranked> {
    if s in dirty then release
    else if |release| == MAX_RELEASE_LIST then
      if rank <= release[|release| - 1].rank then release
      else SortedInsert(release[..|release| - 1], Ranked(s, rank))
    else SortedInsert(release, Ranked(s, rank))
  }

  /** A visit keeps the list ascending and bounded, and it repeats no sector unless the one visited was on it. */
  lemma VisitSpec(release: seq<Ranked>, dirty: set<nat>, s: nat, rank: real)
    requires Ascending(release) && |release| <= MAX_RELEASE_LIST
    ensures var now := Visit(release, dirty, s, rank);
            && Ascending(now) && |now| <= MAX_RELEASE_LIST
            && (NoRepeat(release) && (s in dirty || !Releasable(release, s)) ==> NoRepeat(now))
            && forall r :: r in now ==> r in release || (r == Ranked(s, rank) && s !in dirty)
  {
    if s !in dirty {
      if |release| == MAX_RELEASE_LIST {
        SortedInsertSpec(release[..|release| - 1], Ranked(s, rank));
      } else {
        SortedInsertSpec(release, Ranked(s, rank));
      }
    }
  }

  /** The list once `keys` have been visited in order. */
  function Built(release: seq<Ranked>, dirty: set<nat>, keys: seq<nat>, rank: nat -> real): seq<Ranked> {
    if keys == [] then release
    else
      var n := |keys| - 1;
      Visit(Built(release, dirty, keys[..n], rank), dirty, keys[n], rank(keys[n]))
  }

  predicate Increasing(keys: seq<nat>) {
    forall i, j :: 0 <= i < j < |keys| ==> keys[i] < keys[j]
  }

  lemma {:induction false} BuiltSpec(release: seq<Ranked>, dirty: set<nat>, keys: seq<nat>, rank: nat -> real)
    requires Ascending(release) && |release| <= MAX_RELEASE_LIST
    ensures var now := Built(release, dirty, keys, rank);
            && Ascending(now) && |now| <= MAX_RELEASE_LIST
            && forall r :: r in now ==> r in release || (r.sector in keys && r.sector !in dirty)
  {
    if keys != [] {
      var n := |keys| - 1;
      BuiltSpec(release, dirty, keys[..n], rank);
      VisitSpec(Built(release, dirty, keys[..n], rank), dirty, keys[n], rank(keys[n]));
      assert forall x :: x in keys[..n] ==> x in keys;
    }
  }

  /** No sector left on the list from before is clean and about to be visited. */
  ghost predicate NoneRevisited(release: seq<Ranked>, dirty: set<nat>, keys: seq<nat>) {
    forall i :: 0 <= i < |release| ==> release[i].sector in dirty || release[i].sector !in keys
  }

  /** Building on a list of which nothing clean is visited again repeats no sector. */
  lemma {:induction false} BuiltWhole(release: seq<Ranked>, dirty: set<nat>, keys: seq<nat>, rank: nat -> real)
    requires Ascending(release) && |release| <= MAX_RELEASE_LIST && NoRepeat(release) && Increasing(keys)
    requires NoneRevisited(release, dirty, keys)
    ensures NoRepeat(Built(release, dirty, keys, rank))
  {
    if keys != [] {
      var n := |keys| - 1;
      var before, s := Built(release, dirty, keys[..n], rank), keys[n];
      assert forall x :: x in keys[..n] ==> x in keys && x < s;
      BuiltWhole(release, dirty, keys[..n], rank);
      BuiltSpec(release, dirty, keys[..n], rank);
      VisitSpec(before, dirty, s, rank(s));
      forall i | 0 <= i < |before| ensures s in dirty || before[i].sector != s { assert before[i] in before; }
    }
  }

  function CleanCount(dirty: set<nat>, keys: seq<nat>): nat {
    if keys == [] then 0
    else CleanCount(dirty, keys[..|keys| - 1]) + if keys[|keys| - 1] in dirty then 0 else 1
  }

  /** While there is room for all that is clean, it gets on the list, and nothing leaves. */
  lemma {:induction false} BuiltKeeps(release: seq<Ranked>, dirty: set<nat>, keys: seq<nat>, rank: nat -> real)
    requires Ascending(release) && |release| + CleanCount(dirty, keys) <= MAX_RELEASE_LIST
    ensures |Built(release, dirty, keys, rank)| == |release| + CleanCount(dirty, keys)
    ensures Ascending(Built(release, dirty, keys, rank))
    ensures forall r :: r in release ==> r in Built(release, dirty, keys, rank)
    ensures forall s :: s in keys && s !in dirty ==> Ranked(s, rank(s)) in Built(release, dirty, keys, rank)
  {
    if keys != [] {
      var n := |keys| - 1;
      var before, s := Built(release, dirty, keys[..n], rank), keys[n];
      BuiltKeeps(release, dirty, keys[..n], rank);
      if s !in dirty { SortedInsertSpec(before, Ranked(s, rank(s))); }
    }
  }

  lemma {:induction false} RevisitedRepeats(release: seq<Ranked>, dirty: set<nat>, keys: seq<nat>, rank: nat -> real,
                                            i: nat)
    requires Ascending(release) && |release| + CleanCount(dirty, keys) <= MAX_RELEASE_LIST
    requires i < |release| && release[i].sector !in dirty && release[i].sector in keys
    ensures !NoRepeat(Built(release, dirty, keys, rank))
  {
    var n := |keys| - 1;
    var before, s := Built(release, dirty, keys[..n], rank), keys[n];
    assert keys == keys[..n] + [s];
    BuiltKeeps(release, dirty, keys[..n], rank);
    if s !in dirty { SortedInsertSpec(before, Ranked(s, rank(s))); }
    if s == release[i].sector {
      assert release[i] in before;
    } else {
      RevisitedRepeats(release, dirty, keys[..n], rank, i);
    }
  }

  /** Then the list repeats a sector exactly when a clean one left on it is visited again. */
  lemma BuiltRepeats(release: seq<Ranked>, dirty: set<nat>, keys: seq<nat>, rank: nat -> real)
    requires Ascending(release) && NoRepeat(release) && Increasing(keys)
    requires |release| + CleanCount(dirty, keys) <= MAX_RELEASE_LIST
    ensures NoRepeat(Built(release, dirty, keys, rank)) <==> NoneRevisited(release, dirty, keys)
  {
    if NoneRevisited(release, dirty, keys) {
      BuiltWhole(release, dirty, keys, rank);
    } else {
      var i :| 0 <= i < |release| && release[i].sector !in dirty && release[i].sector in keys;
      RevisitedRepeats(release, dirty, keys, rank, i);
    }
  }

  /** The last place of a full list once `keys` have been visited: the first of the highest rank. */
  function Top(last: Ranked, dirty: set<nat>, keys: seq<nat>, rank: nat -> real): Ranked {
    if keys == [] then last
    else
      var s, t := keys[|keys| - 1], Top(last, dirty, keys[..|keys| - 1], rank);
      if s in dirty || rank(s) <= t.rank then t else Ranked(s, rank(s))
  }

  /** Nothing clean that was visited ranks higher; it is what was there, or a clean key that ranks above all before. */
  lemma {:induction false} TopSpec(last: Ranked, dirty: set<nat>, keys: seq<nat>, rank: nat -> real) returns (i: nat)
    ensures var t := Top(last, dirty, keys, rank);
            && last.rank <= t.rank && (forall j :: 0 <= j < |keys| && keys[j] !in dirty ==> rank(keys[j]) <= t.rank)
            && (t == last ||
                (i < |keys| && keys[i] !in dirty && t == Ranked(keys[i], rank(keys[i])) && last.rank < t.rank
                 && forall j :: 0 <= j < i && keys[j] !in dirty ==> rank(keys[j]) < t.rank))
  {
    i := 0;
    if keys != [] {
      var n := |keys| - 1;
      i := TopSpec(last, dirty, keys[..n], rank);
      if keys[n] !in dirty && rank(keys[n]) > Top(last, dirty, keys[..n], rank).rank { i := n; }
    }
  }

  /** A full list keeps its first two entries. */
  lemma {:induction false} BuiltFull(release: seq<Ranked>, dirty: set<nat>, keys: seq<nat>, rank: nat -> real)
    requires Ascending(release) && |release| == MAX_RELEASE_LIST
    ensures Built(release, dirty, keys, rank) == release[..2] + [Top(release[2], dirty, keys, rank)]
    ensures release[2].rank <= Top(release[2], dirty, keys, rank).rank
  {
    if keys == [] {
      assert release == release[..2] + [release[2]];
    } else {
      var n := |keys| - 1;
      BuiltFull(release, dirty, keys[..n], rank);
      var before, node := Built(release, dirty, keys[..n], rank), Ranked(keys[n], rank(keys[n]));
      assert before[..2] == release[..2];
      if keys[n] !in dirty && node.rank > before[2].rank { InsertsLast(release[..2], node); }
    }
  }

  lemma {:induction false} InsertsLast(release: seq<Ranked>, node: Ranked)
    requires forall i :: 0 <= i < |release| ==> release[i].rank <= node.rank
    ensures SortedInsert(release, node) == release + [node]
  {
    if release != [] {
      InsertsLast(release[1..], node);
      assert release == [release[0]] + release[1..];
    }
  }

  lemma {:induction false} BuiltSplit(release: seq<Ranked>, dirty: set<nat>, keys: seq<nat>, rank: nat -> real, k: nat)
    requires k <= |keys|
    ensures Built(release, dirty, keys, rank) == Built(Built(release, dirty, keys[..k], rank), dirty, keys[k..], rank)
  {
    if k == |keys| {
      assert keys[..k] == keys && keys[k..] == [];
    } else {
      var n := |keys| - 1;
      BuiltSplit(release, dirty, keys[..n], rank, k);
      assert keys[..n][..k] == keys[..k] && keys[..n][k..] == keys[k..][..n - k] && keys[k..][n - k] == keys[n];
    }
  }

  /** How many keys it takes to fill the list. */
  lemma {:induction false} FillPoint(room: nat, dirty: set<nat>, keys: seq<nat>) returns (k: nat)
    requires room <= CleanCount(dirty, keys)
    ensures k <= |keys| && CleanCount(dirty, keys[..k]) == room
  {
    if room == CleanCount(dirty, keys) {
      k := |keys|;
      assert keys[..k] == keys;
    } else {
      var n := |keys| - 1;
      k := FillPoint(room, dirty, keys[..n]);
      assert keys[..n][..k] == keys[..k];
    }
  }

  /** With more that is clean than there is room: the first two of the list as it was filled, and the highest rank. */
  lemma BuiltRepeatsFull(release: seq<Ranked>, dirty: set<nat>, keys: seq<nat>, rank: nat -> real, k: nat)
    requires Ascending(release) && k <= |keys|
    requires |release| + CleanCount(dirty, keys[..k]) == MAX_RELEASE_LIST
    ensures var full := Built(release, dirty, keys[..k], rank);
            && |full| == MAX_RELEASE_LIST
            && var t := Top(full[2], dirty, keys[k..], rank).sector;
               NoRepeat(Built(release, dirty, keys, rank)) <==>
                 full[0].sector != full[1].sector && t != full[0].sector && t != full[1].sector
  {
    BuiltKeeps(release, dirty, keys[..k], rank);
    BuiltSplit(release, dirty, keys, rank, k);
    var full := Built(release, dirty, keys[..k], rank);
    BuiltFull(full, dirty, keys[k..], rank);
    var now := Built(release, dirty, keys, rank);
    assert now[0] == full[0] && now[1] == full[1] && now[2] == Top(full[2], dirty, keys[k..], rank) && |now| == 3;
  }

  // ---------------------------------------------------------------- eviction

  /** The list from its first clean sector on. */
  function NextVictim(release: seq<Ranked>, dirty: set<nat>): seq<Ranked> {
    if release != [] && release[0].sector in dirty then NextVictim(release[1..], dirty) else release
  }

  /** It is what is left behind the dirty ones at the front. */
  lemma {:induction false} NextVictimSpec(release: seq<Ranked>, dirty: set<nat>) returns (k: nat)
    ensures k <= |release| && NextVictim(release, dirty) == release[k..]
    ensures forall i :: 0 <= i < k ==> release[i].sector in dirty
    ensures k < |release| ==> release[k].sector !in dirty
    ensures Ascending(release) ==> Ascending(release[k..])
    ensures NoRepeat(release) ==> NoRepeat(release[k..])
  {
    k := 0;
    if release != [] && release[0].sector in dirty {
      k := NextVictimSpec(release[1..], dirty);
      k := k + 1;
    }
  }
}
