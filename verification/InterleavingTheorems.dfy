/** What every run of the persistence protocol guarantees, from any startup
    state, under any schedule, with any file-system failures. */
module InterleavingTheorems {
  import opened Wrappers
  import opened Durable
  import opened Interleaving
  import opened InterleavingProofs

  // ---------------------------------------------------------------- the file and the live state

  /** The one temporary name is never used by two threads at once. */
  lemma OneWriterAtATime(m: Machine, schedule: seq<(nat, Choice)>, t: nat, u: nat)
    requires Initial(m)
    requires Run(m, schedule).threads.At(t).Writing? && Run(m, schedule).threads.At(u).Writing?
    ensures t == u
  {
    RunKeepsInv(m, schedule);
  }

  /** With `state_write` free the file decodes, its registry is the live one and
      its pool the live one, unless a failure is on record or, for the pool
      alone, the difference is noted for the next flush. */
  lemma QuietFileIsCurrent(m: Machine, schedule: seq<(nat, Choice)>)
    requires Initial(m) && Run(m, schedule).threads.writeOwner.None?
    ensures var now := Run(m, schedule);
            var file := now.codec.Load(now.disk.Content());
            && file.Some?
            && (!now.failed ==> HoldsRegistry(file.value, now.live.registry))
            && (!now.failed && !now.Noted() ==> file.value == StateOf(now.live.pool, now.live.registry))
  {
    RunKeepsInv(m, schedule);
  }

  /** A quota update at `pc` marks its change before it drops the pool lock. */
  predicate MarksEarly(pc: Pc) {
    !pc.MustMark? && (pc.WantsPoolForUpdate? ==> pc.early) && (pc.UpdateApplied? ==> pc.early)
  }

  ghost predicate MarkingEarly(th: Threads) {
    forall t: nat :: MarksEarly(th.At(t))
  }

  predicate OnlyEarlyMarkers(schedule: seq<(nat, Choice)>) {
    forall k :: 0 <= k < |schedule| && schedule[k].1.StartUpdate? ==> schedule[k].1.early
  }

  lemma StepMarksEarly(m: Machine, t: nat, c: Choice)
    requires MarkingEarly(m.threads) && (c.StartUpdate? ==> c.early) && Step(m, t, c).Some?
    ensures MarkingEarly(Step(m, t, c).value.threads)
  {
    var pc := m.threads.At(t);
    if pc.Writing? {
      WriteStepStays(m, t, pc.sn, pc.install, pc.stage, c);
    } else {
      OutsideWriteStays(m, t, c);
    }
    OthersStay(m, t, c);
    assert MarksEarly(pc);
    hide Step;
    var after := Step(m, t, c).value.threads;
    forall u: nat
      ensures MarksEarly(after.At(u))
    {
      assert MarksEarly(m.threads.At(u));
    }
  }

  lemma OthersStay(m: Machine, t: nat, c: Choice)
    requires Step(m, t, c).Some?
    ensures forall u: nat :: u != t ==> Step(m, t, c).value.threads.At(u) == m.threads.At(u)
  {
    if !m.threads.At(t).Idle? {
      EveryStepIsProgress(m, t, c);
    }
  }

  lemma OutsideWriteStays(m: Machine, t: nat, c: Choice)
    requires MarksEarly(m.threads.At(t)) && (c.StartUpdate? ==> c.early) && Step(m, t, c).Some?
    requires !m.threads.At(t).Writing?
    ensures MarksEarly(Step(m, t, c).value.threads.At(t))
  {
  }

  lemma WriteStepStays(m: Machine, t: nat, sn: Snapshot, install: Install, stage: Stage, c: Choice)
    ensures var after := WriteStep(m, t, sn, install, stage, c).threads;
            && after.pcs == m.threads.pcs[t := after.At(t)]
            && (after.At(t).Writing? || after.At(t).Idle?)
  {
    WriteStepIsNearer(m, t, sn, install, stage, c);
  }

  lemma {:induction false} RunMarksEarly(m: Machine, schedule: seq<(nat, Choice)>)
    requires Initial(m) && OnlyEarlyMarkers(schedule)
    ensures MarkingEarly(Run(m, schedule).threads)
    decreases |schedule|
  {
    if schedule != [] {
      var front, last := schedule[..|schedule| - 1], schedule[|schedule| - 1];
      RunMarksEarly(m, front);
      if Step(Run(m, front), last.0, last.1).Some? {
        StepMarksEarly(Run(m, front), last.0, last.1);
      }
    }
  }

  /** Where every quota update marks its change under the pool lock, the flag
      alone tells: with both locks free, the flag down and no failure on record,
      the file is the live state. */
  lemma EarlyMarkersLeaveNoWindow(m: Machine, schedule: seq<(nat, Choice)>)
    requires Initial(m) && OnlyEarlyMarkers(schedule)
    requires Run(m, schedule).threads.writeOwner.None? && Run(m, schedule).threads.poolOwner.None?
    requires !Run(m, schedule).dirty && !Run(m, schedule).failed
    ensures var now := Run(m, schedule);
            now.codec.Load(now.disk.Content()) == Some(StateOf(now.live.pool, now.live.registry))
  {
    RunKeepsInv(m, schedule);
    RunMarksEarly(m, schedule);
    QuietFileIsCurrent(m, schedule);
    var th := Run(m, schedule).threads;
    forall t: nat
      ensures t !in th.unmarked
    {
      assert t in th.unmarked <==> Unmarked(th.At(t));
      assert !HoldsPoolLock(th.At(t));
    }
    assert th.unmarked == {};
  }

  /** A difference that only a late marker has noted: while one thread sits
      between dropping the pool lock and setting the flag, the file is behind
      with the flag down and nothing failed. */
  lemma LateMarkLeavesAWindow(m: Machine, update: Pool -> Pool)
    requires Initial(m) && !m.dirty && !SamePool(m.live.pool, update(m.live.pool))
    ensures var go := Go(true, 0, false);
            var now := Run(m, [(0, StartUpdate(update, false)), (0, go), (0, go)]);
            && now.threads.writeOwner.None? && !now.dirty && !now.failed && now.threads.unmarked == {0}
            && now.codec.Load(now.disk.Content()) != Some(StateOf(now.live.pool, now.live.registry))
  {
    var go := Go(true, 0, false);
    var s1 := [(0, StartUpdate(update, false))];
    var s2 := s1 + [(0, go)];
    var s3 := s2 + [(0, go)];
    assert s1[..0] == [] && s2[..1] == s1 && s3[..2] == s2;
    assert Run(m, s1) == m.Goto(0, WantsPoolForUpdate(update, false));
    assert Run(m, s2) == ApplyUpdate(Run(m, s1), 0, update, false);
    assert Run(m, s3) == EndUpdate(Run(m, s2), 0, true, false);
    assert s3 == [(0, StartUpdate(update, false)), (0, go), (0, go)];
  }

  // ---------------------------------------------------------------- order

  /** Everything snapshot `earlier` saved is in snapshot `later`. */
  ghost predicate Includes(snapshots: seq<Snapshot>, earlier: nat, later: nat)
    requires earlier < |snapshots| && later < |snapshots|
  {
    earlier == later || (earlier < later && After(snapshots[earlier], snapshots[later]))
  }

  /** Renames land in snapshot order: each shows versions of the pool and of
      the registry no older than any earlier one, and past every mutation an
      earlier one committed. */
  lemma RenamesNeverGoBack(m: Machine, schedule: seq<(nat, Choice)>, i: nat, j: nat)
    requires Initial(m) && i < j < |Run(m, schedule).book.snapshots|
    ensures var now := Run(m, schedule);
            && Includes(now.book.snapshots, i, j) && History(now.live, now.past)
            && Precedes(now.past, now.book.snapshots[i], now.book.snapshots[j])
  {
    hide *;
    RunKeepsInv(m, schedule);
    var now := Run(m, schedule);
    InvIsSound(now);
    CommittedComesFirst(now.past, now.book.snapshots, now.book.settled, i, j);
  }

  /** Both say what their operation made of what they name; and what the earlier
      one committed, the later one is past. */
  ghost predicate Precedes(past: Past, earlier: Snapshot, later: Snapshot) {
    && Means(past, earlier) && Means(past, later)
    && (earlier.fate.Committed? ==> TookEffect(past, earlier))
    && (earlier.fate.Committed? && earlier.op.MutatePool? ==> earlier.pool < later.pool)
    && (earlier.fate.Committed? && earlier.op.MutateRegistry? ==> earlier.registry < later.registry)
  }

  lemma InvIsSound(m: Machine)
    requires Inv(m)
    ensures Sound(m.past, m.book.snapshots, m.book.settled) && History(m.live, m.past)
  {
    hide Sound, History, Answers, OnDisk, Locks, Current, InPlace, Fresh;
  }

  lemma CommittedComesFirst(past: Past, snapshots: seq<Snapshot>, settled: nat, i: nat, j: nat)
    requires Sound(past, snapshots, settled) && i < j < |snapshots|
    ensures Includes(snapshots, i, j) && Precedes(past, snapshots[i], snapshots[j])
  {
    hide Means, TookEffect;
    assert After(snapshots[i], snapshots[j]);
  }

  // ---------------------------------------------------------------- crashes

  lemma SurvivorIsWhole(codec: Codec, inode: Option<Inode>, state: State, content: Option<Bytes>)
    requires Represents(codec, inode, state) && Survives(inode, content)
    ensures codec.Load(content) == Some(state)
  {
  }

  lemma WhichSurvived(codec: Codec, disk: Disk, snapshots: seq<Snapshot>, settled: nat, content: Option<Bytes>)
    returns (n: nat)
    requires OnDisk(codec, disk.file, disk.settled, disk.pending, snapshots, settled) && disk.AfterCrash(content)
    ensures settled <= n + 1 && n < |snapshots| && codec.Load(content) == Some(snapshots[n].state)
  {
    if Survives(disk.settled, content) {
      n := settled - 1;
      SurvivorIsWhole(codec, disk.settled, snapshots[n].state, content);
    } else {
      var k :| 0 <= k < |disk.pending| && Survives(Some(disk.pending[k]), content);
      n := settled + k;
      SurvivorIsWhole(codec, Some(disk.pending[k]), snapshots[n].state, content);
    }
  }

  lemma IncludesAnswered(past: Past, registry: Registry, book: Book, n: nat)
    requires Sound(past, book.snapshots, book.settled) && Answers(registry, book)
    requires book.settled <= n + 1 && n < |book.snapshots|
    ensures forall i :: 0 <= i < |book.answers| ==>
              book.answers[i].sn < |book.snapshots| && Includes(book.snapshots, book.answers[i].sn, n)
  {
    forall i | 0 <= i < |book.answers|
      ensures book.answers[i].sn < |book.snapshots| && Includes(book.snapshots, book.answers[i].sn, n)
    {
      assert Answered(book.snapshots, book.settled, book.answers[i]);
      if book.answers[i].sn < n {
        assert After(book.snapshots[book.answers[i].sn], book.snapshots[n]);
      }
    }
  }

  /** A crash at any step leaves the complete bytes of one snapshot, and that
      snapshot includes every mutation a caller was told `Ok` about and every
      registry a reader was given. */
  lemma CrashLeavesOneWholeSnapshot(m: Machine, schedule: seq<(nat, Choice)>, content: Option<Bytes>) returns (n: nat)
    requires Initial(m) && Run(m, schedule).disk.AfterCrash(content)
    ensures var now := Run(m, schedule);
            && n < |now.book.snapshots| && now.codec.Load(content) == Some(now.book.snapshots[n].state)
            && Means(now.past, now.book.snapshots[n])
            && forall i :: 0 <= i < |now.book.answers| ==>
                 && Answered(now.book.snapshots, now.book.settled, now.book.answers[i])
                 && Includes(now.book.snapshots, now.book.answers[i].sn, n)
  {
    RunKeepsInv(m, schedule);
    var now := Run(m, schedule);
    n := WhichSurvived(now.codec, now.disk, now.book.snapshots, now.book.settled, content);
    IncludesAnswered(now.past, now.live.registry, now.book, n);
  }

  /** Version `k + 1` of the pool, made by a mutation, is what a settled snapshot holds. */
  ghost predicate PoolVersionSaved(snapshots: seq<Snapshot>, settled: nat, k: nat) {
    exists j :: 0 <= j < settled && j < |snapshots|
             && snapshots[j].fate.Committed? && snapshots[j].op.MutatePool? && snapshots[j].pool == k
  }

  ghost predicate RegistryVersionSaved(snapshots: seq<Snapshot>, settled: nat, k: nat) {
    exists j :: 0 <= j < settled && j < |snapshots|
             && snapshots[j].fate.Committed? && snapshots[j].op.MutateRegistry? && snapshots[j].registry == k
  }

  /** Every mutation that took effect in memory is behind a directory fsync. */
  ghost predicate Backed(past: Past, snapshots: seq<Snapshot>, settled: nat) {
    && (forall k: nat :: k < |past.poolLog| && past.poolLog[k].ByMutation? ==> PoolVersionSaved(snapshots, settled, k))
    && (forall k: nat :: k < |past.registryLog| ==> RegistryVersionSaved(snapshots, settled, k))
  }

  /** Committed snapshots stay where they are. */
  ghost predicate Keeps(snapshots: seq<Snapshot>, later: seq<Snapshot>) {
    forall j :: 0 <= j < |snapshots| && snapshots[j].fate.Committed? ==> j < |later| && later[j] == snapshots[j]
  }

  lemma SavedStays(snapshots: seq<Snapshot>, later: seq<Snapshot>, settled: nat, laterSettled: nat, k: nat)
    requires settled <= laterSettled && Keeps(snapshots, later)
    ensures PoolVersionSaved(snapshots, settled, k) ==> PoolVersionSaved(later, laterSettled, k)
    ensures RegistryVersionSaved(snapshots, settled, k) ==> RegistryVersionSaved(later, laterSettled, k)
  {
    if PoolVersionSaved(snapshots, settled, k) {
      var j :| 0 <= j < settled && j < |snapshots|
             && snapshots[j].fate.Committed? && snapshots[j].op.MutatePool? && snapshots[j].pool == k;
      assert later[j] == snapshots[j];
    }
    if RegistryVersionSaved(snapshots, settled, k) {
      var j :| 0 <= j < settled && j < |snapshots|
             && snapshots[j].fate.Committed? && snapshots[j].op.MutateRegistry? && snapshots[j].registry == k;
      assert later[j] == snapshots[j];
    }
  }

  /** No mutation is new. */
  ghost predicate OnlyUpdates(past: Past, later: Past) {
    && later.registryLog == past.registryLog
    && forall k :: 0 <= k < |later.poolLog| && later.poolLog[k].ByMutation? ==>
         k < |past.poolLog| && past.poolLog[k].ByMutation?
  }

  lemma BackedIsKept(past: Past, later: Past, snapshots: seq<Snapshot>, laterSnapshots: seq<Snapshot>,
                     settled: nat, laterSettled: nat)
    requires Backed(past, snapshots, settled) && OnlyUpdates(past, later)
    requires settled <= laterSettled && Keeps(snapshots, laterSnapshots)
    ensures Backed(later, laterSnapshots, laterSettled)
  {
    forall k: nat
      ensures PoolVersionSaved(snapshots, settled, k) ==> PoolVersionSaved(laterSnapshots, laterSettled, k)
      ensures RegistryVersionSaved(snapshots, settled, k) ==> RegistryVersionSaved(laterSnapshots, laterSettled, k)
    {
      SavedStays(snapshots, laterSnapshots, settled, laterSettled, k);
    }
  }

  lemma InstallIsBacked(m: Machine, t: nat, sn: Snapshot, install: Install)
    requires InPlace(m.codec, m.disk.tmp, m.book.snapshots, m.book.settled, Writing(sn, install, Done))
    requires SnapshotCurrent(m.live, m.past, m.Noted(), sn, install) && History(m.live, m.past)
    requires Backed(m.past, m.book.snapshots, m.book.settled)
    ensures var after := Installed(m, t, sn, install);
            Backed(after.past, after.book.snapshots, after.book.settled)
  {
    var after := Installed(m, t, sn, install);
    var last := |m.book.snapshots| - 1;
    assert after.book.snapshots[last] == sn.(fate := Committed);
    forall k: nat
      ensures PoolVersionSaved(m.book.snapshots, m.book.settled, k) ==>
                PoolVersionSaved(after.book.snapshots, after.book.settled, k)
      ensures RegistryVersionSaved(m.book.snapshots, m.book.settled, k) ==>
                RegistryVersionSaved(after.book.snapshots, after.book.settled, k)
    {
      SavedStays(m.book.snapshots, after.book.snapshots, m.book.settled, after.book.settled, k);
    }
  }

  lemma WriteStepIsBacked(m: Machine, t: nat, sn: Snapshot, install: Install, stage: Stage, c: Choice)
    requires InPlace(m.codec, m.disk.tmp, m.book.snapshots, m.book.settled, Writing(sn, install, stage))
    requires SnapshotCurrent(m.live, m.past, m.Noted(), sn, install) && History(m.live, m.past)
    requires 0 < m.book.settled <= |m.book.snapshots|
    requires Backed(m.past, m.book.snapshots, m.book.settled)
    ensures var after := WriteStep(m, t, sn, install, stage, c);
            Backed(after.past, after.book.snapshots, after.book.settled)
  {
    if stage.Done? {
      InstallIsBacked(m, t, sn, install);
      assert WriteStep(m, t, sn, install, stage, c) == Installed(m, t, sn, install);
      hide *;
    } else {
      WriteStepOnlyWrites(m, t, sn, install, stage, c);
      hide *;
      var after := WriteStep(m, t, sn, install, stage, c);
      BackedIsKept(m.past, after.past, m.book.snapshots, after.book.snapshots, m.book.settled, after.book.settled);
    }
  }

  lemma WriteStepOnlyWrites(m: Machine, t: nat, sn: Snapshot, install: Install, stage: Stage, c: Choice)
    requires !stage.Done? && m.book.settled <= |m.book.snapshots|
    requires InPlace(m.codec, m.disk.tmp, m.book.snapshots, m.book.settled, Writing(sn, install, stage)) && sn.fate.InFlight?
    ensures var after := WriteStep(m, t, sn, install, stage, c);
            && OnlyUpdates(m.past, after.past) && Keeps(m.book.snapshots, after.book.snapshots)
            && m.book.settled <= after.book.settled
  {
    hide TmpHolds;
  }

  lemma StepIsBacked(m: Machine, t: nat, c: Choice)
    requires Inv(m) && Step(m, t, c).Some? && Backed(m.past, m.book.snapshots, m.book.settled)
    ensures var after := Step(m, t, c).value;
            Backed(after.past, after.book.snapshots, after.book.settled)
  {
    var pc := m.threads.At(t);
    if pc.Writing? {
      assert m.threads.writeOwner == Some(t);
      WriteStepIsBacked(m, t, pc.sn, pc.install, pc.stage, c);
    } else {
      OutsideWriteNoMutation(m, t, c);
      var after := Step(m, t, c).value;
      BackedIsKept(m.past, after.past, m.book.snapshots, after.book.snapshots, m.book.settled, after.book.settled);
    }
  }

  lemma OutsideWriteNoMutation(m: Machine, t: nat, c: Choice)
    requires !m.threads.At(t).Writing? && Step(m, t, c).Some?
    ensures var after := Step(m, t, c).value;
            && OnlyUpdates(m.past, after.past)
            && after.book.snapshots == m.book.snapshots && after.book.settled == m.book.settled
  {
  }

  lemma {:induction false} RunIsBacked(m: Machine, schedule: seq<(nat, Choice)>)
    requires Initial(m) && forall k :: 0 <= k < |m.past.poolLog| ==> m.past.poolLog[k].ByUpdate?
    ensures var now := Run(m, schedule); Backed(now.past, now.book.snapshots, now.book.settled)
    decreases |schedule|
  {
    if schedule != [] {
      var front, last := schedule[..|schedule| - 1], schedule[|schedule| - 1];
      RunIsBacked(m, front);
      RunKeepsInv(m, front);
      if Step(Run(m, front), last.0, last.1).Some? {
        StepIsBacked(Run(m, front), last.0, last.1);
      }
    }
  }

  lemma SavedIsReached(snapshots: seq<Snapshot>, settled: nat, n: nat, k: nat)
    requires InOrder(snapshots) && settled <= n + 1 && n < |snapshots|
    ensures PoolVersionSaved(snapshots, settled, k) ==> k < snapshots[n].ReachesPool()
    ensures RegistryVersionSaved(snapshots, settled, k) ==> k < snapshots[n].ReachesRegistry()
  {
    forall j | 0 <= j < n
      ensures After(snapshots[j], snapshots[n])
    {
    }
  }

  /** Nothing takes effect before it is durable: a crash at any step leaves a
      snapshot at or past every mutation the live pool and the live registry
      have ever taken. */
  lemma EffectsSurviveACrash(m: Machine, schedule: seq<(nat, Choice)>, content: Option<Bytes>) returns (n: nat)
    requires Initial(m) && forall k :: 0 <= k < |m.past.poolLog| ==> m.past.poolLog[k].ByUpdate?
    requires Run(m, schedule).disk.AfterCrash(content)
    ensures var now := Run(m, schedule);
            && n < |now.book.snapshots| && now.codec.Load(content) == Some(now.book.snapshots[n].state)
            && Means(now.past, now.book.snapshots[n])
            && (forall k: nat :: k < |now.past.poolLog| && now.past.poolLog[k].ByMutation? ==>
                  k < now.book.snapshots[n].ReachesPool())
            && |now.past.registryLog| <= now.book.snapshots[n].ReachesRegistry()
  {
    RunKeepsInv(m, schedule);
    RunIsBacked(m, schedule);
    var now := Run(m, schedule);
    n := WhichSurvived(now.codec, now.disk, now.book.snapshots, now.book.settled, content);
    forall k: nat
      ensures PoolVersionSaved(now.book.snapshots, now.book.settled, k) ==> k < now.book.snapshots[n].ReachesPool()
      ensures RegistryVersionSaved(now.book.snapshots, now.book.settled, k) ==>
                k < now.book.snapshots[n].ReachesRegistry()
    {
      SavedIsReached(now.book.snapshots, now.book.settled, n, k);
    }
    if |now.past.registryLog| > 0 {
      assert RegistryVersionSaved(now.book.snapshots, now.book.settled, |now.past.registryLog| - 1);
    }
  }

  /** What a reader would get now is already durable: whatever a crash leaves
      holds that registry or one a later mutation made from it. */
  lemma LiveRegistryIsDurable(m: Machine, schedule: seq<(nat, Choice)>)
    requires Initial(m)
    ensures var now := Run(m, schedule);
            && now.book.savedBy < now.book.settled <= |now.book.snapshots|
            && HoldsRegistry(now.book.snapshots[now.book.savedBy].state, now.live.registry)
            && forall n :: now.book.savedBy <= n < |now.book.snapshots| ==>
                 Includes(now.book.snapshots, now.book.savedBy, n)
  {
    RunKeepsInv(m, schedule);
    var now := Run(m, schedule);
    forall n | now.book.savedBy <= n < |now.book.snapshots|
      ensures Includes(now.book.snapshots, now.book.savedBy, n)
    {
      if now.book.savedBy < n {
        assert After(now.book.snapshots[now.book.savedBy], now.book.snapshots[n]);
      }
    }
  }

  // ---------------------------------------------------------------- progress

  /** The lock order leaves some thread able to step whenever one is inside a call. */
  lemma NoDeadlock(m: Machine, schedule: seq<(nat, Choice)>, t: nat) returns (u: nat)
    requires Initial(m) && !Run(m, schedule).threads.At(t).Idle?
    ensures !Run(m, schedule).threads.At(u).Idle?
    ensures Step(Run(m, schedule), u, Go(true, 0, false)).Some?
  {
    RunKeepsInv(m, schedule);
    var th := Run(m, schedule).threads;
    if th.carriedOwner.Some? {
      u := th.carriedOwner.value;
    } else if th.poolOwner.Some? {
      u := th.poolOwner.value;
      assert HoldsPoolLock(th.At(u));
    } else if th.writeOwner.Some? {
      u := th.writeOwner.value;
      assert HoldsWrite(th.At(u));
    } else {
      u := t;
    }
  }

  /** How far a call is from returning: its phase, then the bytes left to write. */
  function Distance(codec: Codec, pc: Pc): (d: (nat, nat)) {
    match pc
    case Idle => (0, 0)
    case WantsWriteLock(_) => (9, 0)
    case WantsPool(_) => (8, 0)
    case WantsCarried(_, _, _) => (7, 0)
    case Writing(sn, _, stage) => (
      match stage
      case Opening => (6, 0)
      case Filling(written) =>
        var length := |codec.encode(sn.state)|;
        (5, if written < length then length - written else 0)
      case Syncing => (4, 0)
      case Renaming => (3, 0)
      case SyncingDirectory => (2, 0)
      case Done => (1, 0))
    case WantsPoolForUpdate(_, _) => (3, 0)
    case UpdateApplied(_, _) => (2, 0)
    case MustMark => (1, 0)
    case WantsRegistry => (1, 0)
  }

  predicate Nearer(d: (nat, nat), than: (nat, nat)) {
    d.0 < than.0 || (d.0 == than.0 && d.1 < than.1)
  }

  /** `after` has `t` moved from `pc` nearer its return, and no other thread moved. */
  ghost predicate MovesOn(m: Machine, t: nat, pc: Pc, after: Machine) {
    && Nearer(Distance(m.codec, after.threads.At(t)), Distance(m.codec, pc))
    && after.codec == m.codec && after.threads.pcs == m.threads.pcs[t := after.threads.At(t)]
  }

  lemma WriteStepIsNearer(m: Machine, t: nat, sn: Snapshot, install: Install, stage: Stage, c: Choice)
    ensures MovesOn(m, t, Writing(sn, install, stage), WriteStep(m, t, sn, install, stage, c))
  {
    if stage.Done? {
      hide Failed, RenameStep, SyncDirectoryStep, TmpStep;
    } else if !(c.Go? && c.ok) {
      hide Installed, RenameStep, SyncDirectoryStep, TmpStep;
    } else {
      hide Installed, Failed;
    }
  }

  lemma TakePoolIsNearer(m: Machine, t: nat, op: Op, flag: bool)
    ensures MovesOn(m, t, WantsPool(op), TakePool(m, t, op, flag))
  {
  }

  lemma TakeCarriedIsNearer(m: Machine, t: nat, op: Op, pool: Pool, version: nat)
    ensures MovesOn(m, t, WantsCarried(op, pool, version), TakeCarried(m, t, op, pool, version))
  {
  }

  lemma OutsideStepIsNearer(m: Machine, t: nat, c: Choice)
    requires !m.threads.At(t).Idle? && !m.threads.At(t).Writing? && Step(m, t, c).Some?
    ensures MovesOn(m, t, m.threads.At(t), Step(m, t, c).value)
  {
    var pc := m.threads.At(t);
    if pc.WantsPool? {
      TakePoolIsNearer(m, t, pc.op, c.Go? && c.flag);
      hide MovesOn, TakePool, WriteStep;
    } else if pc.WantsCarried? {
      TakeCarriedIsNearer(m, t, pc.op, pc.pool, pc.version);
      hide MovesOn, TakeCarried, WriteStep;
    } else {
      hide TakePool, TakeCarried, WriteStep;
    }
  }

  /** Every step of a thread inside a call brings that call nearer its return
      and moves no other thread. */
  lemma EveryStepIsProgress(m: Machine, t: nat, c: Choice)
    requires !m.threads.At(t).Idle? && Step(m, t, c).Some?
    ensures var after := Step(m, t, c).value;
            && Nearer(Distance(m.codec, after.threads.At(t)), Distance(m.codec, m.threads.At(t)))
            && after.codec == m.codec
            && forall u: nat :: u != t ==> after.threads.At(u) == m.threads.At(u)
  {
    var pc := m.threads.At(t);
    if pc.Writing? {
      WriteStepIsNearer(m, t, pc.sn, pc.install, pc.stage, c);
      hide WriteStep, Distance, Nearer;
    } else {
      OutsideStepIsNearer(m, t, c);
      hide Step, Distance, Nearer;
    }
  }

  /** Steps a call has taken to be at `pc`, at most, once past its first. */
  function StepsBehind(codec: Codec, pc: Pc): nat {
    match pc
    case Idle => 0
    case WantsWriteLock(_) => 0
    case WantsPool(_) => 1
    case WantsCarried(_, _, _) => 2
    case Writing(sn, _, stage) => (
      var length := |codec.encode(sn.state)|;
      match stage
      case Opening => 3
      case Filling(written) => 4 + if written < length then written else length
      case Syncing => 5 + length
      case Renaming => 6 + length
      case SyncingDirectory => 7 + length
      case Done => 8 + length)
    case WantsPoolForUpdate(_, _) => 0
    case UpdateApplied(_, _) => 1
    case MustMark => 2
    case WantsRegistry => 0
  }

  lemma WriteStepCounts(m: Machine, t: nat, sn: Snapshot, install: Install, stage: Stage, c: Choice)
    requires !WriteStep(m, t, sn, install, stage, c).threads.At(t).Idle?
    ensures var after := WriteStep(m, t, sn, install, stage, c);
            && StepsBehind(m.codec, after.threads.At(t)) > StepsBehind(m.codec, Writing(sn, install, stage))
            && after.codec == m.codec
  {
    if stage.Done? {
      hide Failed, RenameStep, SyncDirectoryStep, TmpStep;
    } else if !(c.Go? && c.ok) {
      hide Installed, RenameStep, SyncDirectoryStep, TmpStep;
    } else {
      hide Installed, Failed;
    }
  }

  lemma OutsideStepCounts(m: Machine, t: nat, c: Choice)
    requires !m.threads.At(t).Idle? && !m.threads.At(t).Writing? && Step(m, t, c).Some?
    requires !Step(m, t, c).value.threads.At(t).Idle?
    ensures StepsBehind(m.codec, Step(m, t, c).value.threads.At(t)) > StepsBehind(m.codec, m.threads.At(t))
  {
    hide WriteStep;
  }

  /** The steps of `t` in a schedule that took effect. */
  function StepsOf(m: Machine, schedule: seq<(nat, Choice)>, t: nat): nat
    decreases |schedule|
  {
    if schedule == [] then 0
    else
      var front, last := schedule[..|schedule| - 1], schedule[|schedule| - 1];
      StepsOf(m, front, t) + if last.0 == t && Step(Run(m, front), t, last.1).Some? then 1 else 0
  }

  /** `t` is inside a call all along. */
  ghost predicate InsideCall(m: Machine, schedule: seq<(nat, Choice)>, t: nat) {
    forall i :: 0 <= i <= |schedule| ==> !Run(m, schedule[..i]).threads.At(t).Idle?
  }

  lemma StepInsideCounts(m: Machine, t: nat, u: nat, c: Choice)
    requires Step(m, u, c).Some? && !m.threads.At(t).Idle? && !Step(m, u, c).value.threads.At(t).Idle?
    ensures var after := Step(m, u, c).value;
            && after.codec == m.codec
            && StepsBehind(m.codec, after.threads.At(t)) >= StepsBehind(m.codec, m.threads.At(t)) + if u == t then 1 else 0
  {
    CodecStays(m, u, c);
    if u == t {
      var pc := m.threads.At(t);
      if pc.Writing? {
        WriteStepCounts(m, t, pc.sn, pc.install, pc.stage, c);
      } else {
        OutsideStepCounts(m, t, c);
      }
    } else {
      OthersStay(m, u, c);
      hide Step, StepsBehind;
    }
  }

  lemma CodecStays(m: Machine, t: nat, c: Choice)
    requires Step(m, t, c).Some?
    ensures Step(m, t, c).value.codec == m.codec
  {
    if !m.threads.At(t).Idle? {
      EveryStepIsProgress(m, t, c);
    }
  }

  /** However long the schedule and whatever the others do, a call that has not
      returned has taken few steps: no more than eight, besides one for each byte
      it writes. */
  lemma {:induction false} CallsAreShort(m: Machine, schedule: seq<(nat, Choice)>, t: nat)
    requires InsideCall(m, schedule, t)
    ensures var now := Run(m, schedule);
            && now.codec == m.codec
            && StepsOf(m, schedule, t) + StepsBehind(m.codec, m.threads.At(t)) <= StepsBehind(m.codec, now.threads.At(t))
            && StepsBehind(m.codec, now.threads.At(t)) <=
               8 + if now.threads.At(t).Writing? then |m.codec.encode(now.threads.At(t).sn.state)| else 0
    decreases |schedule|
  {
    if schedule != [] {
      var n := |schedule| - 1;
      var front, last := schedule[..n], schedule[n];
      forall i | 0 <= i <= n
        ensures !Run(m, front[..i]).threads.At(t).Idle?
      {
        assert front[..i] == schedule[..i];
      }
      CallsAreShort(m, front, t);
      assert schedule[..n + 1] == schedule && !Run(m, schedule[..n + 1]).threads.At(t).Idle?;
      assert !Run(m, schedule[..n]).threads.At(t).Idle?;
      if Step(Run(m, front), last.0, last.1).Some? {
        StepInsideCounts(Run(m, front), t, last.0, last.1);
      }
      hide Step;
    }
  }

  // ---------------------------------------------------------------- a late failure

  lemma {:induction false} RunFrom(m: Machine, step: (nat, Choice), rest: seq<(nat, Choice)>)
    requires Step(m, step.0, step.1).Some?
    ensures Run(m, [step] + rest) == Run(Step(m, step.0, step.1).value, rest)
    decreases |rest|
  {
    hide Step;
    var schedule := [step] + rest;
    if rest == [] {
      assert schedule[..0] == [];
    } else {
      var n := |rest| - 1;
      assert schedule[..n + 1] == [step] + rest[..n] && schedule[n + 1] == rest[n];
      RunFrom(m, step, rest[..n]);
    }
  }

  /** Thread `t` has come this far with a write begun in `m`, the temporary file
      holding these bytes. */
  ghost predicate CameTo(m: Machine, now: Machine, t: nat, sn: Snapshot, install: Install, stage: Stage, written: Bytes) {
    && now.live == m.live && now.codec == m.codec && now.book == m.book && now.dirty == m.dirty
    && now.threads.At(t) == Writing(sn, install, stage)
    && (stage.Opening? || (now.disk.tmp.Some? && now.disk.tmp.value.bytes == written))
  }

  const GOES := Go(true, 0, false)

  /** One effect of the write up to the rename, each taking all it can. */
  lemma GoesOn(m: Machine, now: Machine, t: nat, sn: Snapshot, install: Install, stage: Stage)
      returns (later: Machine)
    requires stage in {Opening, Filling(0), Filling(|m.codec.encode(sn.state)|), Syncing}
    requires CameTo(m, now, t, sn, install, stage, if stage == Filling(0) then [] else m.codec.encode(sn.state))
    ensures Step(now, t, GOES) == Some(later)
    ensures stage.Opening? ==> CameTo(m, later, t, sn, install, Filling(0), [])
    ensures var bytes := m.codec.encode(sn.state);
            && (stage == Filling(0) && bytes != [] ==> CameTo(m, later, t, sn, install, Filling(|bytes|), bytes))
            && (stage == Filling(|bytes|) ==> CameTo(m, later, t, sn, install, Syncing, bytes))
            && (stage.Syncing? ==> CameTo(m, later, t, sn, install, Renaming, bytes))
  {
    var bytes := m.codec.encode(sn.state);
    assert bytes[0..|bytes|] == bytes && [] + bytes == bytes;
    later := TmpStep(now, t, sn, install, stage, 0);
  }

  /** From the rename on: the directory fsync fails. */
  lemma FailsAtTheDirectory(m: Machine, now: Machine, t: nat, sn: Snapshot, install: Install)
    requires m.codec.Faithful() && CameTo(m, now, t, sn, install, Renaming, m.codec.encode(sn.state))
    ensures var end := Run(now, [(t, GOES), (t, Go(false, 0, false))]);
            && end.live == m.live && end.failed && end.threads.At(t).Idle? && end.codec == m.codec
            && end.codec.Load(end.disk.Content()) == Some(sn.state)
  {
    var fail := Go(false, 0, false);
    var renamed := RenameStep(now, t, sn, install);
    var failed := Failed(renamed, t, sn, install, SyncingDirectory, false);
    assert Step(now, t, GOES) == Some(renamed) && Step(renamed, t, fail) == Some(failed);
    assert failed.codec.Load(failed.disk.Content()) == Some(sn.state);
    TwoSteps(now, renamed, failed, (t, GOES), (t, fail));
    hide Run;
  }

  lemma TwoSteps(m: Machine, next: Machine, end: Machine, c: (nat, Choice), d: (nat, Choice))
    requires Step(m, c.0, c.1) == Some(next) && Step(next, d.0, d.1) == Some(end)
    ensures Run(m, [c, d]) == end
  {
    hide Step;
    assert Run(end, []) == end;
    hide Run;
    RunFrom(next, d, []);
    RunFrom(m, c, [d]);
    assert [d] + [] == [d] && [c] + [d] == [c, d];
  }

  /** The write of a writer about to start, failing at the directory fsync. */
  lemma WriteFailsLate(m: Machine, t: nat, sn: Snapshot, install: Install) returns (schedule: seq<(nat, Choice)>)
    requires m.codec.Faithful() && m.threads.At(t) == Writing(sn, install, Opening)
    ensures var now := Run(m, schedule);
            && now.live == m.live && now.failed && now.threads.At(t).Idle? && now.codec == m.codec
            && now.codec.Load(now.disk.Content()) == Some(sn.state)
  {
    var bytes := m.codec.encode(sn.state);
    assert CameTo(m, m, t, sn, install, Opening, bytes);
    hide *;
    var created := GoesOn(m, m, t, sn, install, Opening);
    var filled := created;
    if bytes != [] {
      filled := GoesOn(m, created, t, sn, install, Filling(0));
    }
    var full := GoesOn(m, filled, t, sn, install, Filling(|bytes|));
    var synced := GoesOn(m, full, t, sn, install, Syncing);
    FailsAtTheDirectory(m, synced, t, sn, install);
    schedule := [(t, GOES), (t, Go(false, 0, false))];
    RunFrom(full, (t, GOES), schedule);
    schedule := [(t, GOES)] + schedule;
    RunFrom(filled, (t, GOES), schedule);
    schedule := [(t, GOES)] + schedule;
    if bytes != [] {
      RunFrom(created, (t, GOES), schedule);
      schedule := [(t, GOES)] + schedule;
    }
    RunFrom(m, (t, GOES), schedule);
    schedule := [(t, GOES)] + schedule;
  }

  /** A registry mutation that failed after its rename: the caller got an error
      and the live registry is what it was, and the file is not. */
  lemma FailedMutationChangesTheFile(m: Machine, g: Registry -> Option<Registry>) returns (schedule: seq<(nat, Choice)>)
    requires Initial(m) && g(m.live.registry).Some?
    ensures var now := Run(m, schedule);
            && now.live == m.live && now.failed && now.threads.At(0).Idle?
            && now.codec.Load(now.disk.Content()) == Some(StateOf(m.live.pool, g(m.live.registry).value))
  {
    var op, go := MutateRegistry(g), Go(true, 0, false);
    var wanting := m.Goto(0, WantsWriteLock(op));
    var locked := TakeWriteLock(wanting, 0, op);
    var copied := TakePool(locked, 0, op, false);
    var pool, version := m.live.pool, Last(m.past.pools);
    assert copied.threads.At(0) == WantsCarried(op, pool, version);
    var ready := TakeCarried(copied, 0, op, pool, version);
    var pc := ready.threads.At(0);
    schedule := WriteFailsLate(ready, 0, pc.sn, pc.install);
    RunFrom(copied, (0, go), schedule);
    schedule := [(0, go)] + schedule;
    RunFrom(locked, (0, go), schedule);
    schedule := [(0, go)] + schedule;
    RunFrom(wanting, (0, go), schedule);
    schedule := [(0, go)] + schedule;
    RunFrom(m, (0, Start(op)), schedule);
    schedule := [(0, Start(op))] + schedule;
  }
}
