/** Runs of the cached drive against a plain array of sectors. */
module DiskRuns {
  import opened Volume
  import opened ReleaseList
  import opened CacheState
  import opened DiskCache

  datatype Op =
    | ReadSectors(sector: nat, count: nat)
    | WriteSectors(sector: nat, data: seq<Sector>)
    | Flush(most: int)
    | ReleaseCache(keys: seq<nat>, rank: nat -> real)

  /** A sector of the volume on the device. */
  function From(base: nat, sector: nat): (r: nat)
    ensures r == base + sector
  {
    base + sector
  }

  /** The plain drive: only a write changes it. */
  ghost function Step(disk: seq<Sector>, base: nat, op: Op): seq<Sector> {
    if op.WriteSectors? then Overlay(disk, From(base, op.sector), op.data) else disk
  }

  ghost predicate AnswerOk(disk: seq<Sector>, base: nat, op: Op, answer: seq<Sector>) {
    op.ReadSectors? ==>
      var start := From(base, op.sector); start + op.count <= |disk| && answer == disk[start..start + op.count]
  }

  /** A call the drive can serve: sectors that it has, and the cached ones in order for a cleanup. */
  predicate Possible(d: Drive, base: nat, op: Op) {
    match op
    case ReadSectors(sector, count) => From(base, sector) + count <= |d.raw|
    case WriteSectors(sector, data) => From(base, sector) + |data| <= |d.raw|
    case Flush(_) => true
    case ReleaseCache(keys, _) => Increasing(keys) && forall i | 0 <= i < |keys| :: keys[i] in d.cache
  }

  /** A request that evicts no hit it has still to use; a cleanup that lists no sector twice. */
  predicate Harmless(d: Drive, base: nat, op: Op) {
    match op
    case ReadSectors(sector, count) => ReadSurvives(d, From(base, sector), count)
    case WriteSectors(sector, data) => WriteSurvives(d, From(base, sector), |data|)
    case Flush(_) => true
    case ReleaseCache(keys, rank) => RebuildsWell(d, keys, rank)
  }

  /** Exactly a harmless write or cleanup leaves the drive sound, and a harmless read is answered right. */
  ghost predicate Outcome(d: Drive, base: nat, op: Op, answer: seq<Sector>, d': Drive)
    requires Pooled(d)
  {
    && (Sound(d') <==> op.ReadSectors? || Harmless(d, base, op))
    && (Harmless(d, base, op) ==>
          Sound(d') && View(d') == Step(View(d), base, op) && AnswerOk(View(d), base, op, answer))
  }

  /** What a run does not go beyond. */
  ghost predicate Stopped(d: Drive, base: nat, op: Op) {
    match op
    case ReadSectors(sector, count) =>
      base + sector + count > |d.raw| || !ReadSurvives(d, base + sector, count)
    case WriteSectors(sector, data) =>
      base + sector + |data| > |d.raw| || !WriteSurvives(d, base + sector, |data|)
    case Flush(_) => false
    case ReleaseCache(keys, rank) =>
      !Increasing(keys) || (exists i :: 0 <= i < |keys| && keys[i] !in d.cache) || !RebuildsWell(d, keys, rank)
  }

  lemma ReadPerformed(d: Drive, base: nat, sector: nat, count: nat, start: nat, answer: seq<Sector>, d': Drive)
    requires Pooled(d) && Sound(d') && View(d') == View(d) && start == From(base, sector) && start + count <= |d.raw|
    requires ReadOutcome(d, start, count, answer)
    ensures Outcome(d, base, ReadSectors(sector, count), answer, d') == true
  {
  }

  lemma WritePerformed(d: Drive, base: nat, sector: nat, data: seq<Sector>, start: nat, d': Drive)
    requires Pooled(d) && start == From(base, sector) && WriteOutcome(d, d', start, data)
    ensures Outcome(d, base, WriteSectors(sector, data), [], d') == true
  {
    assert !DirtyCached(d') ==> !Sound(d');
  }

  method Perform(d: DiskDrive, op: Op) returns (answer: seq<Sector>)
    requires d.Valid() && Possible(d.Now(), d.lbaStart, op)
    modifies d
    ensures Outcome(old(d.Now()), d.lbaStart, op, answer, d.Now()) == true
  {
    ghost var before := d.Now();
    answer := [];
    match op
    case ReadSectors(sector, count) =>
      answer := d.Read(sector, count, seq(count, _ => ZERO_SECTOR));
      ReadPerformed(before, d.lbaStart, sector, count, d.Place(sector), answer, d.Now());
    case WriteSectors(sector, data) =>
      d.Write(sector, data);
      WritePerformed(before, d.lbaStart, sector, data, d.Place(sector), d.Now());
    case Flush(most) =>
      d.FlushDirtyCacheSectors(most);
    case ReleaseCache(keys, rank) =>
      d.LFUCacheCleanUp(keys, rank);
  }

  /** The plain array after each operation, and the answers it gives. */
  ghost predicate Agrees(disks: seq<seq<Sector>>, base: nat, ops: seq<Op>, answers: seq<seq<Sector>>) {
    && |answers| <= |ops| && |disks| == |answers| + 1
    && forall i :: 0 <= i < |answers| ==> Served(disks[i], base, ops[i], answers[i], disks[i + 1])
  }

  ghost predicate Served(disk: seq<Sector>, base: nat, op: Op, answer: seq<Sector>, disk': seq<Sector>) {
    disk' == Step(disk, base, op) && AnswerOk(disk, base, op, answer)
  }

  lemma AgreesOn(disks: seq<seq<Sector>>, base: nat, ops: seq<Op>, answers: seq<seq<Sector>>, answer: seq<Sector>,
                 disk: seq<Sector>)
    requires Agrees(disks, base, ops, answers) && |answers| < |ops|
    requires Served(disks[|answers|], base, ops[|answers|], answer, disk)
    ensures Agrees(disks + [disk], base, ops, answers + [answer])
  {
  }

  /**
   Any run of requests, flushes and cleanups, up to the first that is impossible or does harm: every read answers what a
   plain array given the same writes answers, and what a reader of the drive sees is that array.
   */
  method Run(d: DiskDrive, ops: seq<Op>) returns (answers: seq<seq<Sector>>, ghost disks: seq<seq<Sector>>)
    requires d.Valid()
    modifies d
    ensures d.Valid() && Agrees(disks, d.lbaStart, ops, answers)
    ensures disks[0] == old(d.Seen()) && disks[|answers|] == d.Seen()
    ensures |answers| < |ops| ==> Stopped(d.Now(), d.lbaStart, ops[|answers|])
  {
    answers, disks := [], [d.Seen()];
    while |answers| < |ops|
      invariant d.Valid() && Agrees(disks, d.lbaStart, ops, answers)
      invariant disks[0] == old(d.Seen()) && disks[|answers|] == d.Seen()
      decreases |ops| - |answers|
    {
      var op := ops[|answers|];
      if !Possible(d.Now(), d.lbaStart, op) || !Harmless(d.Now(), d.lbaStart, op) { return; }
      var answer := Perform(d, op);
      AgreesOn(disks, d.lbaStart, ops, answers, answer, d.Seen());
      answers, disks := answers + [answer], disks + [d.Seen()];
    }
  }

  /** A run that ends with a full flush leaves on the device what the plain array holds. */
  method RunAndFlush(d: DiskDrive, ops: seq<Op>) returns (answers: seq<seq<Sector>>, ghost disks: seq<seq<Sector>>)
    requires d.Valid()
    modifies d
    ensures d.Valid() && d.dirty == [] && Agrees(disks, d.lbaStart, ops, answers)
    ensures disks[0] == old(d.Seen()) && d.raw == disks[|answers|]
  {
    answers, disks := Run(d, ops);
    d.FlushDirtyCacheSectors(-1);
  }
}
