/** Every step keeps the invariant, and what that means for readers, callers
    and a crash. */
module InterleavingProofs {
  import opened Wrappers
  import opened Durable
  import opened Interleaving

  lemma InitialIsInvariant(m: Machine)
    requires Initial(m)
    ensures Inv(m)
  {
  }

  /** A thread outside `state_write` moves between two places without it. */
  lemma OutsiderMoves(m: Machine, m': Machine, t: nat, pc: Pc)
    requires Inv(m) && m' == m.Goto(t, pc)
    requires var before := m.threads.At(t);
             !HoldsWrite(before) && !HoldsWrite(pc) && HoldsPoolLock(before) == HoldsPoolLock(pc)
             && !HoldsCarried(before) && !HoldsCarried(pc) && Unmarked(before) == Unmarked(pc)
    ensures Inv(m')
  {
    assert forall u: nat :: m'.threads.At(u) == if u == t then pc else m.threads.At(u);
    assert m'.threads.Writer() == m.threads.Writer();
  }

  lemma TakeWriteLockKeeps(m: Machine, t: nat, op: Op)
    requires Inv(m) && m.threads.At(t) == WantsWriteLock(op) && m.threads.writeOwner.None?
    ensures Inv(TakeWriteLock(m, t, op))
  {
    var m' := TakeWriteLock(m, t, op);
    assert forall u: nat :: m'.threads.At(u) == if u == t then WantsPool(op) else m.threads.At(u);
  }

  predicate Extends(past: Past, later: Past) {
    past.pools <= later.pools && past.registries <= later.registries
  }

  lemma MeansIsKept(past: Past, later: Past, sn: Snapshot)
    requires Extends(past, later)
    ensures Means(past, sn) ==> Means(later, sn)
    ensures TookEffect(past, sn) ==> TookEffect(later, sn)
  {
  }

  lemma SoundIsKept(past: Past, later: Past, snapshots: seq<Snapshot>, settled: nat)
    requires Extends(past, later) && Sound(past, snapshots, settled)
    ensures Sound(later, snapshots, settled)
  {
    forall i | 0 <= i < |snapshots|
      ensures Means(later, snapshots[i])
      ensures snapshots[i].fate.Committed? ==> TookEffect(later, snapshots[i])
    {
      MeansIsKept(past, later, snapshots[i]);
    }
  }

  /** A pool change is one more version, and what was true of the versions before stays true. */
  lemma ChangePoolKeepsHistory(m: Machine, after: Pool, event: PoolEvent)
    requires History(m.live, m.past) && Sound(m.past, m.book.snapshots, m.book.settled)
    requires Follows(m.live.pool, event, after)
    ensures var m' := m.ChangePool(after, event);
            History(m'.live, m'.past) && Sound(m'.past, m.book.snapshots, m.book.settled) && Extends(m.past, m'.past)
  {
    SoundIsKept(m.past, m.past.PoolBecame(after, event), m.book.snapshots, m.book.settled);
  }

  lemma ReachesLive(m: Machine)
    requires Sound(m.past, m.book.snapshots, m.book.settled) && History(m.live, m.past)
    ensures Beyond(m.book.snapshots, |m.past.pools| - 1, |m.past.registries| - 1)
  {
    forall i | 0 <= i < |m.book.snapshots|
      ensures m.book.snapshots[i].ReachesPool() <= |m.past.pools| - 1
      ensures m.book.snapshots[i].ReachesRegistry() <= |m.past.registries| - 1
    {
      assert Means(m.past, m.book.snapshots[i]);
      assert m.book.snapshots[i].fate.Committed? ==> TookEffect(m.past, m.book.snapshots[i]);
    }
  }

  /** With one thread gone to `pc`, the locks are right when they are right for it. */
  lemma LocksAfter(th: Threads, th': Threads, t: nat, pc: Pc)
    requires Locks(th) && th'.pcs == th.pcs[t := pc]
    requires forall u: nat :: u != t ==>
               && (th'.writeOwner == Some(u) <==> th.writeOwner == Some(u))
               && (th'.poolOwner == Some(u) <==> th.poolOwner == Some(u))
               && (th'.carriedOwner == Some(u) <==> th.carriedOwner == Some(u))
               && (u in th'.unmarked <==> u in th.unmarked)
    requires th'.writeOwner == Some(t) <==> HoldsWrite(pc)
    requires th'.poolOwner == Some(t) <==> HoldsPoolLock(pc)
    requires th'.carriedOwner == Some(t) <==> HoldsCarried(pc)
    requires t in th'.unmarked <==> Unmarked(pc)
    ensures Locks(th')
  {
    forall u: nat
      ensures th'.At(u) == if u == t then pc else th.At(u)
    {
    }
  }

  lemma TakePoolForMutationKeeps(m: Machine, t: nat, f: Pool -> Option<Pool>, flag: bool)
    requires Inv(m) && m.threads.At(t) == WantsPool(MutatePool(f)) && m.threads.poolOwner.None?
    ensures Inv(TakePool(m, t, MutatePool(f), flag))
  {
    hide Rest;
    var m' := TakePool(m, t, MutatePool(f), flag);
    assert m.threads.writeOwner == Some(t);
    LocksAfter(m.threads, m'.threads, t, m'.threads.At(t));
    CandidateBuilt(m, t, f, flag);
  }

  lemma CandidateBuilt(m: Machine, t: nat, f: Pool -> Option<Pool>, flag: bool)
    requires Rest(m, WantsPool(MutatePool(f)))
    ensures var m' := TakePool(m, t, MutatePool(f), flag); Rest(m', m'.threads.At(t))
  {
    hide Sound, Answers, OnDisk;
  }

  lemma TakePoolForRegistryKeeps(m: Machine, t: nat, g: Registry -> Option<Registry>, flag: bool)
    requires Inv(m) && m.threads.At(t) == WantsPool(MutateRegistry(g)) && m.threads.poolOwner.None?
    ensures Inv(TakePool(m, t, MutateRegistry(g), flag))
  {
    hide Rest;
    var m' := TakePool(m, t, MutateRegistry(g), flag);
    assert m.threads.writeOwner == Some(t);
    LocksAfter(m.threads, m'.threads, t, m'.threads.At(t));
    PoolCopied(m, t, g, flag);
  }

  lemma PoolCopied(m: Machine, t: nat, g: Registry -> Option<Registry>, flag: bool)
    requires Rest(m, WantsPool(MutateRegistry(g)))
    ensures var m' := TakePool(m, t, MutateRegistry(g), flag); Rest(m', m'.threads.At(t))
  {
    ReachesLive(m);
    hide Sound, Answers, OnDisk;
  }

  lemma TakePoolForFlushKeeps(m: Machine, t: nat, expire: Pool -> Pool, flag: bool)
    requires Inv(m) && m.threads.At(t) == WantsPool(FlushQuota(expire)) && m.threads.poolOwner.None?
    ensures Inv(TakePool(m, t, FlushQuota(expire), flag))
  {
    hide Rest;
    var m' := TakePool(m, t, FlushQuota(expire), flag);
    assert m.threads.writeOwner == Some(t);
    LocksAfter(m.threads, m'.threads, t, m'.threads.At(t));
    FlushSnapshotBegun(m, t, expire, flag);
  }

  lemma FlushSnapshotBegun(m: Machine, t: nat, expire: Pool -> Pool, flag: bool)
    requires Rest(m, WantsPool(FlushQuota(expire)))
    ensures var m' := TakePool(m, t, FlushQuota(expire), flag); Rest(m', m'.threads.At(t))
  {
    var m' := TakePool(m, t, FlushQuota(expire), flag);
    var after := expire(m.live.pool);
    ChangePoolKeepsHistory(m, after, ByUpdate(expire));
    hide History, Sound, Answers, OnDisk, InPlace;
    if !SamePool(m.live.pool, after) || flag || m.dirty {
      assert m'.threads.At(t) == WantsCarried(FlushQuota(expire), after, |m.past.pools|);
    } else {
      assert m'.threads.At(t) == Idle;
    }
  }

  lemma TakeCarriedForRegistryKeeps(m: Machine, t: nat, op: Op, pool: Pool, version: nat)
    requires Inv(m) && m.threads.At(t) == WantsCarried(op, pool, version) && m.threads.carriedOwner.None?
    requires op.MutateRegistry?
    ensures Inv(TakeCarried(m, t, op, pool, version))
  {
    hide Rest;
    var m' := TakeCarried(m, t, op, pool, version);
    assert m.threads.writeOwner == Some(t);
    LocksAfter(m.threads, m'.threads, t, m'.threads.At(t));
    RegistrySnapshotTaken(m, t, op, pool, version);
  }

  lemma RegistrySnapshotTaken(m: Machine, t: nat, op: Op, pool: Pool, version: nat)
    requires Rest(m, WantsCarried(op, pool, version)) && op.MutateRegistry?
    ensures Rest(TakeCarried(m, t, op, pool, version), TakeCarried(m, t, op, pool, version).threads.At(t))
  {
    hide Sound, Answers, OnDisk;
  }

  lemma TakeCarriedForPoolKeeps(m: Machine, t: nat, op: Op, pool: Pool, version: nat)
    requires Inv(m) && m.threads.At(t) == WantsCarried(op, pool, version) && m.threads.carriedOwner.None?
    requires !op.MutateRegistry?
    ensures Inv(TakeCarried(m, t, op, pool, version))
  {
    hide Rest;
    var m' := TakeCarried(m, t, op, pool, version);
    assert m.threads.writeOwner == Some(t);
    LocksAfter(m.threads, m'.threads, t, m'.threads.At(t));
    PoolSnapshotTaken(m, t, op, pool, version);
  }

  lemma PoolSnapshotTaken(m: Machine, t: nat, op: Op, pool: Pool, version: nat)
    requires Rest(m, WantsCarried(op, pool, version)) && !op.MutateRegistry?
    ensures Rest(TakeCarried(m, t, op, pool, version), TakeCarried(m, t, op, pool, version).threads.At(t))
  {
    ReachesLive(m);
    hide Sound, Answers, OnDisk;
  }

  lemma TmpFilled(codec: Codec, sn: Snapshot, tmp: Option<Inode>, written: nat, n: nat)
    requires var bytes := codec.encode(sn.state);
             TmpHolds(tmp, bytes, Filling(written)) && written + n <= |bytes|
    ensures var bytes := codec.encode(sn.state);
            TmpHolds(Some(Inode(tmp.value.bytes + bytes[written..written + n], false)), bytes, Filling(written + n))
    ensures written == |codec.encode(sn.state)| ==> TmpHolds(tmp, codec.encode(sn.state), Syncing)
  {
    var bytes := codec.encode(sn.state);
    assert bytes[..written] + bytes[written..written + n] == bytes[..written + n];
    assert bytes[..|bytes|] == bytes;
  }

  /** A writer's step that touches no more than the temporary file. */
  lemma TmpChangeKeeps(m: Machine, t: nat, sn: Snapshot, install: Install, stage: Stage, tmp: Option<Inode>, next: Stage)
    requires Inv(m) && m.threads.At(t) == Writing(sn, install, stage)
    requires BeforeRename(stage) && BeforeRename(next) && TmpHolds(tmp, m.codec.encode(sn.state), next)
    ensures Inv(m.(disk := m.disk.(tmp := tmp)).Goto(t, Writing(sn, install, next)))
  {
    hide Rest;
    var m' := m.(disk := m.disk.(tmp := tmp)).Goto(t, Writing(sn, install, next));
    assert m.threads.writeOwner == Some(t);
    LocksAfter(m.threads, m'.threads, t, Writing(sn, install, next));
    TmpChanged(m, t, sn, install, stage, tmp, next);
  }

  lemma TmpChanged(m: Machine, t: nat, sn: Snapshot, install: Install, stage: Stage, tmp: Option<Inode>, next: Stage)
    requires Rest(m, Writing(sn, install, stage))
    requires BeforeRename(stage) && BeforeRename(next) && TmpHolds(tmp, m.codec.encode(sn.state), next)
    ensures Rest(m.(disk := m.disk.(tmp := tmp)).Goto(t, Writing(sn, install, next)), Writing(sn, install, next))
  {
    hide Sound, Answers, OnDisk, History, TmpHolds;
  }

  lemma TmpStepShape(m: Machine, t: nat, sn: Snapshot, install: Install, stage: Stage, size: nat)
    returns (tmp: Option<Inode>, next: Stage)
    requires TmpHolds(m.disk.tmp, m.codec.encode(sn.state), stage) && BeforeRename(stage) && !stage.Renaming?
    ensures TmpStep(m, t, sn, install, stage, size)
         == m.(disk := m.disk.(tmp := tmp)).Goto(t, Writing(sn, install, next))
    ensures BeforeRename(next) && TmpHolds(tmp, m.codec.encode(sn.state), next)
  {
    var bytes := m.codec.encode(sn.state);
    match stage
    case Opening =>
      tmp, next := m.disk.OpenTmp().tmp, Filling(0);
      assert bytes[..0] == [];
    case Filling(written) =>
      if written >= |bytes| {
        TmpFilled(m.codec, sn, m.disk.tmp, written, 0);
        tmp, next := m.disk.tmp, Syncing;
      } else {
        var n := if size == 0 || size > |bytes| - written then |bytes| - written else size;
        TmpFilled(m.codec, sn, m.disk.tmp, written, n);
        tmp, next := m.disk.Append(bytes[written..written + n]).tmp, Filling(written + n);
      }
    case Syncing =>
      tmp, next := m.disk.SyncTmp().tmp, Renaming;
  }

  lemma TmpStepKeeps(m: Machine, t: nat, sn: Snapshot, install: Install, stage: Stage, size: nat)
    requires Inv(m) && m.threads.At(t) == Writing(sn, install, stage) && BeforeRename(stage) && !stage.Renaming?
    ensures Inv(TmpStep(m, t, sn, install, stage, size))
  {
    assert m.threads.writeOwner == Some(t);
    var tmp, next := TmpStepShape(m, t, sn, install, stage, size);
    TmpChangeKeeps(m, t, sn, install, stage, tmp, next);
  }

  lemma SnapshotAdded(m: Machine, sn: Snapshot)
    requires Sound(m.past, m.book.snapshots, m.book.settled) && Answers(m.live.registry, m.book)
    requires OnDisk(m.codec, m.disk.file, m.disk.settled, m.disk.pending, m.book.snapshots, m.book.settled)
    requires Means(m.past, sn) && sn.fate.InFlight? && Beyond(m.book.snapshots, sn.pool, sn.registry)
    requires m.disk.tmp == Some(Inode(m.codec.encode(sn.state), true))
    ensures var disk, book := m.disk.Rename(), m.book.(snapshots := m.book.snapshots + [sn]);
            && Sound(m.past, book.snapshots, book.settled) && Answers(m.live.registry, book)
            && OnDisk(m.codec, disk.file, disk.settled, disk.pending, book.snapshots, book.settled)
  {
    var more := m.book.snapshots + [sn];
    assert Represents(m.codec, m.disk.tmp, sn.state);
    SoundWithOneMore(m.past, m.book.snapshots, m.book.settled, sn);
    AnswersWithOneMore(m.live.registry, m.book, sn);
    OnDiskWithOneMore(m.codec, m.disk, m.book.snapshots, m.book.settled, sn);
  }

  lemma SoundWithOneMore(past: Past, snapshots: seq<Snapshot>, settled: nat, sn: Snapshot)
    requires Sound(past, snapshots, settled) && Means(past, sn) && sn.fate.InFlight? && Beyond(snapshots, sn.pool, sn.registry)
    ensures Sound(past, snapshots + [sn], settled)
  {
    hide Means, TookEffect;
  }

  lemma AnswersWithOneMore(registry: Registry, book: Book, sn: Snapshot)
    requires Answers(registry, book)
    ensures Answers(registry, book.(snapshots := book.snapshots + [sn]))
  {
    var more := book.snapshots + [sn];
    forall i | 0 <= i < |book.answers|
      ensures Answered(more, book.settled, book.answers[i])
    {
      assert Answered(book.snapshots, book.settled, book.answers[i]);
    }
  }

  lemma OnDiskWithOneMore(codec: Codec, disk: Disk, snapshots: seq<Snapshot>, settled: nat, sn: Snapshot)
    requires OnDisk(codec, disk.file, disk.settled, disk.pending, snapshots, settled)
    requires disk.tmp.Some? && Represents(codec, disk.tmp, sn.state)
    ensures var later := disk.Rename(); OnDisk(codec, later.file, later.settled, later.pending, snapshots + [sn], settled)
  {
    hide Represents;
  }

  lemma RenameKeeps(m: Machine, t: nat, sn: Snapshot, install: Install)
    requires Inv(m) && m.threads.At(t) == Writing(sn, install, Renaming)
    ensures Inv(RenameStep(m, t, sn, install))
  {
    hide Rest;
    var m' := RenameStep(m, t, sn, install);
    assert m.threads.writeOwner == Some(t);
    LocksAfter(m.threads, m'.threads, t, m'.threads.At(t));
    Renamed(m, t, sn, install);
  }

  lemma Renamed(m: Machine, t: nat, sn: Snapshot, install: Install)
    requires Rest(m, Writing(sn, install, Renaming))
    ensures Rest(RenameStep(m, t, sn, install), Writing(sn, install, SyncingDirectory))
  {
    SnapshotAdded(m, sn);
    hide Sound, Answers, OnDisk, History;
  }

  lemma SyncDirectoryKeeps(m: Machine, t: nat, sn: Snapshot, install: Install)
    requires Inv(m) && m.threads.At(t) == Writing(sn, install, SyncingDirectory)
    ensures Inv(SyncDirectoryStep(m, t, sn, install))
  {
    hide Rest;
    var m' := SyncDirectoryStep(m, t, sn, install);
    assert m.threads.writeOwner == Some(t);
    LocksAfter(m.threads, m'.threads, t, m'.threads.At(t));
    DirectorySynced(m, t, sn, install);
  }

  lemma DirectorySynced(m: Machine, t: nat, sn: Snapshot, install: Install)
    requires Rest(m, Writing(sn, install, SyncingDirectory))
    ensures Rest(SyncDirectoryStep(m, t, sn, install), Writing(sn, install, Done))
  {
    hide InOrder, TookEffect;
  }

  /** What became of the last write changes neither what it wrote nor the order. */
  lemma FateKeeps(past: Past, registry: Registry, book: Book, fate: Fate)
    requires Sound(past, book.snapshots, book.settled) && Answers(registry, book)
    requires book.snapshots[|book.snapshots| - 1].fate.InFlight?
    requires fate.Committed? ==>
               book.settled == |book.snapshots| && TookEffect(past, book.snapshots[|book.snapshots| - 1])
    ensures var book' := book.WithLastFate(fate);
            && Sound(past, book'.snapshots, book.settled) && Answers(registry, book')
            && |book'.snapshots| == |book.snapshots|
            && (forall i :: 0 <= i < |book.snapshots| ==> book'.snapshots[i].state == book.snapshots[i].state)
  {
  }

  lemma SameStatesOnDisk(m: Machine, later: seq<Snapshot>)
    requires |later| == |m.book.snapshots|
    requires OnDisk(m.codec, m.disk.file, m.disk.settled, m.disk.pending, m.book.snapshots, m.book.settled)
    requires forall i :: 0 <= i < |later| ==> later[i].state == m.book.snapshots[i].state
    ensures OnDisk(m.codec, m.disk.file, m.disk.settled, m.disk.pending, later, m.book.settled)
  {
  }

  lemma FailedBeforeRenameKeeps(m: Machine, t: nat, sn: Snapshot, install: Install, stage: Stage, cleaned: bool)
    requires Inv(m) && m.threads.At(t) == Writing(sn, install, stage) && BeforeRename(stage)
    ensures Inv(Failed(m, t, sn, install, stage, cleaned))
  {
    var m' := Failed(m, t, sn, install, stage, cleaned);
    assert m.threads.writeOwner == Some(t);
    hide Rest;
    RestAfterFailure(m, t, sn, install, stage, cleaned);
    LocksAfter(m.threads, m'.threads, t, Idle);
  }

  lemma RestAfterFailure(m: Machine, t: nat, sn: Snapshot, install: Install, stage: Stage, cleaned: bool)
    requires Rest(m, Writing(sn, install, stage)) && BeforeRename(stage)
    ensures Rest(Failed(m, t, sn, install, stage, cleaned), Idle)
  {
    hide History, Sound, Answers, OnDisk;
  }

  lemma FailedAfterRenameKeeps(m: Machine, t: nat, sn: Snapshot, install: Install, cleaned: bool)
    requires Inv(m) && m.threads.At(t) == Writing(sn, install, SyncingDirectory)
    ensures Inv(Failed(m, t, sn, install, SyncingDirectory, cleaned))
  {
    hide Rest;
    var m' := Failed(m, t, sn, install, SyncingDirectory, cleaned);
    assert m.threads.writeOwner == Some(t);
    LocksAfter(m.threads, m'.threads, t, Idle);
    LateFailureRecorded(m, t, sn, install, cleaned);
  }

  lemma LateFailureRecorded(m: Machine, t: nat, sn: Snapshot, install: Install, cleaned: bool)
    requires Rest(m, Writing(sn, install, SyncingDirectory))
    ensures Rest(Failed(m, t, sn, install, SyncingDirectory, cleaned), Idle)
  {
    FateKeeps(m.past, m.live.registry, m.book, LateFailed);
    SameStatesOnDisk(m, m.book.WithLastFate(LateFailed).snapshots);
    hide Sound, OnDisk;
  }

  lemma InstalledPool(m: Machine, t: nat, sn: Snapshot, install: Install)
    requires Rest(m, Writing(sn, install, Done)) && sn.op.MutatePool?
    ensures Rest(Installed(m, t, sn, install), Idle)
  {
    var m' := Installed(m, t, sn, install);
    assert Follows(m.live.pool, ByMutation(sn.op.f), install.pool);
    ChangePoolKeepsHistory(m, install.pool, ByMutation(sn.op.f));
    assert m'.past == m.ChangePool(install.pool, ByMutation(sn.op.f)).past;
    FateKeeps(m'.past, m.live.registry, m.book, Committed);
    SameStatesOnDisk(m, m'.book.snapshots);
    hide History, Sound, OnDisk;
  }

  lemma InstalledRegistry(m: Machine, t: nat, sn: Snapshot, install: Install)
    requires Rest(m, Writing(sn, install, Done)) && sn.op.MutateRegistry?
    ensures Rest(Installed(m, t, sn, install), Idle)
  {
    hide Sound, OnDisk, Answers, History, Means, TookEffect;
    RegistryGrows(m, t, sn, install);
    var m' := Installed(m, t, sn, install);
    SoundIsKept(m.past, m'.past, m.book.snapshots, m.book.settled);
    FateKeeps(m'.past, m.live.registry, m.book, Committed);
    SameStatesOnDisk(m, m'.book.snapshots);
    RegistryAnswered(m, t, sn, install);
  }

  lemma RegistryGrows(m: Machine, t: nat, sn: Snapshot, install: Install)
    requires History(m.live, m.past) && sn.op.MutateRegistry? && SnapshotCurrent(m.live, m.past, m.Noted(), sn, install)
    ensures var m' := Installed(m, t, sn, install);
            History(m'.live, m'.past) && Extends(m.past, m'.past) && TookEffect(m'.past, sn)
  {
  }

  lemma RegistryAnswered(m: Machine, t: nat, sn: Snapshot, install: Install)
    requires History(m.live, m.past) && sn.op.MutateRegistry? && SnapshotCurrent(m.live, m.past, m.Noted(), sn, install)
    requires m.book.snapshots != [] && m.book.snapshots[|m.book.snapshots| - 1] == sn
    requires m.book.settled == |m.book.snapshots| && Answers(m.live.registry, m.book.WithLastFate(Committed))
    ensures var m' := Installed(m, t, sn, install);
            Answers(m'.live.registry, m'.book) && HoldsRegistry(sn.state, m'.live.registry)
  {
  }

  lemma InstalledFlush(m: Machine, t: nat, sn: Snapshot, install: Install)
    requires Rest(m, Writing(sn, install, Done)) && sn.op.FlushQuota?
    ensures Rest(Installed(m, t, sn, install), Idle)
  {
    var m' := Installed(m, t, sn, install);
    FateKeeps(m.past, m.live.registry, m.book, Committed);
    SameStatesOnDisk(m, m'.book.snapshots);
  }

  lemma InstalledKeeps(m: Machine, t: nat, sn: Snapshot, install: Install)
    requires Inv(m) && m.threads.At(t) == Writing(sn, install, Done)
    ensures Inv(Installed(m, t, sn, install))
  {
    hide Rest, Installed;
    var m' := Installed(m, t, sn, install);
    InstalledReturns(m, t, sn, install);
    assert m.threads.writeOwner == Some(t);
    LocksAfter(m.threads, m'.threads, t, Idle);
    match sn.op
    case MutatePool(_) => InstalledPool(m, t, sn, install);
    case MutateRegistry(_) => InstalledRegistry(m, t, sn, install);
    case FlushQuota(_) => InstalledFlush(m, t, sn, install);
  }

  lemma InstalledReturns(m: Machine, t: nat, sn: Snapshot, install: Install)
    ensures Installed(m, t, sn, install).threads == m.threads.Return(t, Writing(sn, install, Done))
  {
  }

  lemma ApplyUpdateKeeps(m: Machine, t: nat, update: Pool -> Pool, early: bool)
    requires Inv(m) && m.threads.At(t) == WantsPoolForUpdate(update, early) && m.threads.poolOwner.None?
    ensures Inv(ApplyUpdate(m, t, update, early))
  {
    hide Rest;
    var m' := ApplyUpdate(m, t, update, early);
    LocksAfter(m.threads, m'.threads, t, m'.threads.At(t));
    WriterUnmoved(m.threads, m'.threads, t);
    UpdateApplies(m, t, update, early, m.threads.Writer());
  }

  /** A thread that is not the writer leaves the writer where it is. */
  lemma WriterUnmoved(th: Threads, th': Threads, t: nat)
    requires Locks(th) && !HoldsWrite(th.At(t)) && th'.writeOwner == th.writeOwner && th'.pcs == th.pcs[t := th'.At(t)]
    ensures th'.Writer() == th.Writer()
  {
  }

  lemma UpdateApplies(m: Machine, t: nat, update: Pool -> Pool, early: bool, w: Pc)
    requires Rest(m, w) && !HoldsPoolLock(w)
    ensures Rest(ApplyUpdate(m, t, update, early), w)
  {
    var after := update(m.live.pool);
    var noted := ApplyUpdate(m, t, update, early).Noted();
    assert !SamePool(m.live.pool, after) || m.Noted() ==> noted;
    ChangePoolKeepsHistory(m, after, ByUpdate(update));
    assert m.past.pools[|m.past.pools| - 1] == m.live.pool;
    hide Current, Fresh, InPlace, History, Sound, Answers, OnDisk, SamePool;
    UpdateKeepsCurrent(m.live, m.past, m.book.snapshots, m.Noted(), w, update, noted);
    UpdateKeepsFresh(m.live, m.book.snapshots, m.failed, m.Noted(), w, after, noted);
  }

  lemma UpdateKeepsCurrent(live: Live, past: Past, snapshots: seq<Snapshot>, noted: bool, w: Pc, update: Pool -> Pool,
                           later: bool)
    requires Current(live, past, snapshots, noted, w) && !HoldsPoolLock(w)
    requires !SamePool(live.pool, update(live.pool)) || noted ==> later
    ensures var after := update(live.pool);
            Current(live.(pool := after), past.PoolBecame(after, ByUpdate(update)), snapshots, later, w)
  {
    hide Beyond;
  }

  lemma UpdateKeepsFresh(live: Live, snapshots: seq<Snapshot>, failed: bool, noted: bool, w: Pc, after: Pool, later: bool)
    requires Fresh(live, snapshots, failed, noted, w) && !HoldsPoolLock(w)
    requires !SamePool(live.pool, after) || noted ==> later
    ensures Fresh(live.(pool := after), snapshots, failed, later, w)
  {
  }

  lemma EndUpdateKeeps(m: Machine, t: nat, changed: bool, early: bool)
    requires Inv(m) && m.threads.At(t) == UpdateApplied(changed, early)
    ensures Inv(EndUpdate(m, t, changed, early))
  {
    hide Rest;
    var m' := EndUpdate(m, t, changed, early);
    LocksAfter(m.threads, m'.threads, t, m'.threads.At(t));
    WriterUnmoved(m.threads, m'.threads, t);
    UpdateEnds(m, t, changed, early, m.threads.Writer());
  }

  lemma UpdateEnds(m: Machine, t: nat, changed: bool, early: bool, w: Pc)
    requires Rest(m, w) && m.threads.At(t) == UpdateApplied(changed, early) && (t in m.threads.unmarked ==> changed)
    ensures Rest(EndUpdate(m, t, changed, early), w)
  {
    hide Sound, Answers, OnDisk, History;
  }

  lemma MarkKeeps(m: Machine, t: nat)
    requires Inv(m) && m.threads.At(t) == MustMark
    ensures Inv(Mark(m, t))
  {
    var m' := Mark(m, t);
    LocksAfter(m.threads, m'.threads, t, Idle);
  }

  lemma ReadKeeps(m: Machine, t: nat)
    requires Inv(m) && m.threads.At(t) == WantsRegistry && m.threads.carriedOwner.None?
    ensures Inv(ReadRegistry(m, t))
  {
    var m' := ReadRegistry(m, t);
    LocksAfter(m.threads, m'.threads, t, Idle);
  }

  lemma StartKeeps(m: Machine, t: nat, c: Choice)
    requires Inv(m) && m.threads.At(t).Idle? && Step(m, t, c).Some?
    ensures Inv(Step(m, t, c).value)
  {
    match c
    case Start(op) => OutsiderMoves(m, Step(m, t, c).value, t, WantsWriteLock(op));
    case StartUpdate(update, early) => OutsiderMoves(m, Step(m, t, c).value, t, WantsPoolForUpdate(update, early));
    case StartRead => OutsiderMoves(m, Step(m, t, c).value, t, WantsRegistry);
  }

  lemma WriteKeeps(m: Machine, t: nat, sn: Snapshot, install: Install, stage: Stage, c: Choice)
    requires Inv(m) && m.threads.At(t) == Writing(sn, install, stage)
    ensures Inv(WriteStep(m, t, sn, install, stage, c))
  {
    hide Inv, Installed, Failed, RenameStep, SyncDirectoryStep, TmpStep;
    if stage.Done? {
      InstalledKeeps(m, t, sn, install);
    } else if !(c.Go? && c.ok) {
      if stage.SyncingDirectory? {
        FailedAfterRenameKeeps(m, t, sn, install, c.Go? && c.flag);
      } else {
        FailedBeforeRenameKeeps(m, t, sn, install, stage, c.Go? && c.flag);
      }
    } else if stage.Renaming? {
      RenameKeeps(m, t, sn, install);
    } else if stage.SyncingDirectory? {
      SyncDirectoryKeeps(m, t, sn, install);
    } else {
      TmpStepKeeps(m, t, sn, install, stage, c.size);
    }
  }

  lemma StepKeepsInv(m: Machine, t: nat, c: Choice)
    requires Inv(m) && Step(m, t, c).Some?
    ensures Inv(Step(m, t, c).value)
  {
    hide Inv, TakeWriteLock, TakePool, TakeCarried, WriteStep, ApplyUpdate, EndUpdate, Mark, ReadRegistry;
    match m.threads.At(t)
    case Idle => StartKeeps(m, t, c);
    case WantsWriteLock(op) => TakeWriteLockKeeps(m, t, op);
    case WantsPool(op) => {
      match op
      case MutatePool(f) => TakePoolForMutationKeeps(m, t, f, c.Go? && c.flag);
      case MutateRegistry(g) => TakePoolForRegistryKeeps(m, t, g, c.Go? && c.flag);
      case FlushQuota(expire) => TakePoolForFlushKeeps(m, t, expire, c.Go? && c.flag);
    }
    case WantsCarried(op, pool, version) =>
      if op.MutateRegistry? {
        TakeCarriedForRegistryKeeps(m, t, op, pool, version);
      } else {
        TakeCarriedForPoolKeeps(m, t, op, pool, version);
      }
    case Writing(sn, install, stage) => WriteKeeps(m, t, sn, install, stage, c);
    case WantsPoolForUpdate(update, early) => ApplyUpdateKeeps(m, t, update, early);
    case UpdateApplied(changed, early) => EndUpdateKeeps(m, t, changed, early);
    case MustMark => MarkKeeps(m, t);
    case WantsRegistry => ReadKeeps(m, t);
  }

  lemma {:induction false} RunKeepsInv(m: Machine, schedule: seq<(nat, Choice)>)
    requires Initial(m)
    ensures Inv(Run(m, schedule))
    decreases |schedule|
  {
    if schedule == [] {
      InitialIsInvariant(m);
    } else {
      var front, last := schedule[..|schedule| - 1], schedule[|schedule| - 1];
      RunKeepsInv(m, front);
      if Step(Run(m, front), last.0, last.1).Some? {
        StepKeepsInv(Run(m, front), last.0, last.1);
      }
    }
  }
}
