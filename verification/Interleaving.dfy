/** The state-persistence protocol of the running server as a transition
    system: any number of threads inside `mutate_pool`, `mutate_registry`,
    `flush_quota`, a quota update or a registry read, three locks, one dirty
    flag and one file, with every effect on the disk a step of its own.

    Beside what the server holds, a machine records the history the theorems
    speak about: every value the live pool and registry have had, and every
    snapshot renamed over the file. */
module Interleaving {
  import opened Wrappers
  import opened Durable

  // ---------------------------------------------------------------- operations and snapshots

  /** A writer's closure; `None` is its refusal. */
  datatype Op =
    | MutatePool(f: Pool -> Option<Pool>)
    | MutateRegistry(g: Registry -> Option<Registry>)
    | FlushQuota(expire: Pool -> Pool)

  datatype Fate = InFlight | Committed | LateFailed

  /** What one write puts in the file: `op` applied to version `pool` of the
      pool and version `registry` of the registry. */
  datatype Snapshot = Snapshot(op: Op, pool: nat, registry: nat, state: State, fate: Fate) {

    /** The version a committed mutation gave the pool, or the one the snapshot shows. */
    function ReachesPool(): nat {
      if fate.Committed? && op.MutatePool? then pool + 1 else pool
    }

    function ReachesRegistry(): nat {
      if fate.Committed? && op.MutateRegistry? then registry + 1 else registry
    }
  }

  /** What `Ok` from the write lets a writer replace. */
  datatype Install = InstallPool(pool: Pool) | InstallRegistry(registry: Registry) | InstallNothing

  /** Where `write_private_atomic` is. */
  datatype Stage = Opening | Filling(written: nat) | Syncing | Renaming | SyncingDirectory | Done

  predicate BeforeRename(stage: Stage) {
    !stage.SyncingDirectory? && !stage.Done?
  }

  datatype Pc =
    | Idle
    | WantsWriteLock(op: Op)
    | WantsPool(op: Op)
    | WantsCarried(op: Op, pool: Pool, version: nat)
    | Writing(sn: Snapshot, install: Install, stage: Stage)
    | WantsPoolForUpdate(update: Pool -> Pool, early: bool)
    | UpdateApplied(changed: bool, early: bool)
    | MustMark
    | WantsRegistry

  predicate HoldsWrite(pc: Pc) {
    pc.WantsPool? || pc.WantsCarried? || pc.Writing?
  }

  predicate HoldsPoolLock(pc: Pc) {
    || pc.UpdateApplied?
    || (pc.WantsCarried? && !pc.op.MutateRegistry?)
    || (pc.Writing? && pc.sn.op.MutatePool?)
  }

  predicate HoldsCarried(pc: Pc) {
    pc.Writing? && pc.sn.op.MutateRegistry?
  }

  /** The thread has changed the pool's durable part and not yet said so. */
  predicate Unmarked(pc: Pc) {
    pc.MustMark? || (pc.UpdateApplied? && pc.changed)
  }

  // ---------------------------------------------------------------- the machine

  datatype Live = Live(pool: Pool, registry: Registry)

  /** Program counters and lock owners; `unmarked` holds the threads that
      changed the pool's durable part and have not marked it dirty. */
  datatype Threads = Threads(
    writeOwner: Option<nat>,
    poolOwner: Option<nat>,
    carriedOwner: Option<nat>,
    pcs: map<nat, Pc>,
    unmarked: set<nat>)
  {
    function At(t: nat): Pc {
      if t in pcs then pcs[t] else Idle
    }

    function Goto(t: nat, pc: Pc): Threads {
      this.(pcs := pcs[t := pc])
    }

    function Writer(): Pc {
      if writeOwner.Some? then At(writeOwner.value) else Idle
    }

    /** The guards a thread holds at `pc` are dropped and its call returns. */
    function Return(t: nat, pc: Pc): Threads {
      Threads(
        if HoldsWrite(pc) then None else writeOwner,
        if HoldsPoolLock(pc) then None else poolOwner,
        if HoldsCarried(pc) then None else carriedOwner,
        pcs[t := Idle],
        unmarked)
    }
  }

  datatype PoolEvent = ByMutation(f: Pool -> Option<Pool>) | ByUpdate(update: Pool -> Pool)

  /** Every value the live pool and registry have had, and what made each next one. */
  datatype Past = Past(
    pools: seq<Pool>,
    poolLog: seq<PoolEvent>,
    registries: seq<Registry>,
    registryLog: seq<Registry -> Option<Registry>>)
  {
    function PoolBecame(after: Pool, event: PoolEvent): Past {
      this.(pools := pools + [after], poolLog := poolLog + [event])
    }

    function RegistryBecame(after: Registry, g: Registry -> Option<Registry>): Past {
      this.(registries := registries + [after], registryLog := registryLog + [g])
    }
  }

  /** `Saved(n)`: a mutation returned `Ok`, its state being snapshot `n`.
      `Read(n, r)`: a reader was given `r`, which snapshot `n` holds. */
  datatype Answer = Saved(sn: nat) | Read(sn: nat, registry: Registry)

  /** The renamed snapshots in order; those below `settled` have been followed
      by a directory fsync; `savedBy` made the live registry durable. */
  datatype Book = Book(snapshots: seq<Snapshot>, settled: nat, savedBy: nat, answers: seq<Answer>) {

    function WithLastFate(fate: Fate): Book {
      if snapshots == [] then this
      else this.(snapshots := snapshots[|snapshots| - 1 := snapshots[|snapshots| - 1].(fate := fate)])
    }
  }

  /** `failed`: a flush failed, or a write failed after its rename, and no
      write has succeeded since. */
  datatype Machine = Machine(
    codec: Codec,
    live: Live,
    dirty: bool,
    failed: bool,
    disk: Disk,
    threads: Threads,
    past: Past,
    book: Book)
  {
    function Goto(t: nat, pc: Pc): Machine {
      this.(threads := threads.Goto(t, pc))
    }

    function Return(t: nat, pc: Pc): Machine {
      this.(threads := threads.Return(t, pc))
    }

    /** A difference between the pool and the file would be written out in time. */
    predicate Noted() {
      dirty || threads.unmarked != {}
    }

    function ChangePool(after: Pool, event: PoolEvent): Machine {
      this.(live := live.(pool := after), past := past.PoolBecame(after, event))
    }
  }

  function Last<T>(s: seq<T>): nat {
    if s == [] then 0 else |s| - 1
  }

  /** What the environment decides at a step: which call begins, whether a
      file-system call succeeds, how many bytes one write takes, whether an
      expiry reports a change. */
  datatype Choice =
    | Start(op: Op)
    | StartUpdate(update: Pool -> Pool, early: bool)
    | StartRead
    | Go(ok: bool, size: nat, flag: bool)

  /** One step of thread `t`; `None` while it waits for a lock. */
  function Step(m: Machine, t: nat, c: Choice): Option<Machine> {
    match m.threads.At(t)
    case Idle => (
      match c
      case Start(op) => Some(m.Goto(t, WantsWriteLock(op)))
      case StartUpdate(update, early) => Some(m.Goto(t, WantsPoolForUpdate(update, early)))
      case StartRead => Some(m.Goto(t, WantsRegistry))
      case Go(_, _, _) => None)
    case WantsWriteLock(op) =>
      if m.threads.writeOwner.Some? then None else Some(TakeWriteLock(m, t, op))
    case WantsPool(op) =>
      if m.threads.poolOwner.Some? then None else Some(TakePool(m, t, op, c.Go? && c.flag))
    case WantsCarried(op, pool, version) =>
      if m.threads.carriedOwner.Some? then None else Some(TakeCarried(m, t, op, pool, version))
    case Writing(sn, install, stage) =>
      Some(WriteStep(m, t, sn, install, stage, c))
    case WantsPoolForUpdate(update, early) =>
      if m.threads.poolOwner.Some? then None else Some(ApplyUpdate(m, t, update, early))
    case UpdateApplied(changed, early) => Some(EndUpdate(m, t, changed, early))
    case MustMark => Some(Mark(m, t))
    case WantsRegistry =>
      if m.threads.carriedOwner.Some? then None else Some(ReadRegistry(m, t))
  }

  function TakeWriteLock(m: Machine, t: nat, op: Op): Machine {
    m.(threads := m.threads.(writeOwner := Some(t)).Goto(t, WantsPool(op)))
  }

  /** With `pool` locked: a pool mutation builds its candidate and keeps the
      lock, a registry mutation copies the pool and drops it, a flush expires
      quota, takes the dirty flag and returns at once when neither changed
      anything. */
  function TakePool(m: Machine, t: nat, op: Op, flag: bool): Machine {
    var pc := WantsPool(op);
    match op
    case MutatePool(f) => (
      match f(m.live.pool)
      case None => m.Return(t, pc)
      case Some(candidate) =>
        m.(threads := m.threads.(poolOwner := Some(t)).Goto(t, WantsCarried(op, candidate, Last(m.past.pools)))))
    case MutateRegistry(_) =>
      m.Goto(t, WantsCarried(op, m.live.pool, Last(m.past.pools)))
    case FlushQuota(expire) =>
      var after := expire(m.live.pool);
      var expired := !SamePool(m.live.pool, after) || flag;
      var m' := m.ChangePool(after, ByUpdate(expire)).(dirty := false);
      if expired || m.dirty then
        m'.(threads := m.threads.(poolOwner := Some(t)).Goto(t, WantsCarried(op, after, |m.past.pools|)))
      else m'.Return(t, pc)
  }

  /** With `carried` locked: `durable_state` reads the registry and drops the
      lock (a flush then drops the pool's too); a registry mutation builds its
      candidate and keeps the lock. */
  function TakeCarried(m: Machine, t: nat, op: Op, pool: Pool, version: nat): Machine {
    var current := Last(m.past.registries);
    match op
    case MutatePool(_) =>
      m.Goto(t, Writing(Snapshot(op, version, current, StateOf(pool, m.live.registry), InFlight),
                        InstallPool(pool), Opening))
    case FlushQuota(_) =>
      m.(threads := m.threads.(poolOwner := None).Goto(t,
        Writing(Snapshot(op, version, current, StateOf(pool, m.live.registry), InFlight), InstallNothing, Opening)))
    case MutateRegistry(g) => (
      match g(m.live.registry)
      case None => m.Return(t, WantsCarried(op, pool, version))
      case Some(candidate) =>
        m.(threads := m.threads.(carriedOwner := Some(t)).Goto(t,
          Writing(Snapshot(op, version, current, StateOf(pool, candidate), InFlight),
                  InstallRegistry(candidate), Opening))))
  }

  /** One effect of `write_private_atomic`, or its failure, and after its `Ok`
      the assignment that makes the candidate live. */
  function WriteStep(m: Machine, t: nat, sn: Snapshot, install: Install, stage: Stage, c: Choice): Machine {
    if stage.Done? then Installed(m, t, sn, install)
    else if !(c.Go? && c.ok) then Failed(m, t, sn, install, stage, c.Go? && c.flag)
    else
      match stage
      case Renaming => RenameStep(m, t, sn, install)
      case SyncingDirectory => SyncDirectoryStep(m, t, sn, install)
      case _ => TmpStep(m, t, sn, install, stage, c.size)
  }

  /** Creating, filling and fsyncing the temporary file. */
  function TmpStep(m: Machine, t: nat, sn: Snapshot, install: Install, stage: Stage, size: nat): Machine {
    var bytes := m.codec.encode(sn.state);
    match stage
    case Opening => m.(disk := m.disk.OpenTmp()).Goto(t, Writing(sn, install, Filling(0)))
    case Filling(written) =>
      if written >= |bytes| then m.Goto(t, Writing(sn, install, Syncing)) else
      var n := if size == 0 || size > |bytes| - written then |bytes| - written else size;
      m.(disk := m.disk.Append(bytes[written..written + n])).Goto(t, Writing(sn, install, Filling(written + n)))
    case Syncing => m.(disk := m.disk.SyncTmp()).Goto(t, Writing(sn, install, Renaming))
    case _ => m
  }

  function RenameStep(m: Machine, t: nat, sn: Snapshot, install: Install): Machine {
    m.(disk := m.disk.Rename(), book := m.book.(snapshots := m.book.snapshots + [sn]))
    .Goto(t, Writing(sn, install, SyncingDirectory))
  }

  function SyncDirectoryStep(m: Machine, t: nat, sn: Snapshot, install: Install): Machine {
    m.(disk := m.disk.SyncDirectory(), book := m.book.(settled := |m.book.snapshots|), failed := false)
    .Goto(t, Writing(sn, install, Done))
  }

  /** A failed call: after the rename the snapshot is in place all the same. */
  function Failed(m: Machine, t: nat, sn: Snapshot, install: Install, stage: Stage, cleaned: bool): Machine {
    var pc := Writing(sn, install, stage);
    if stage.SyncingDirectory? then
      m.(failed := true, book := m.book.WithLastFate(LateFailed)).Return(t, pc)
    else
      m.(failed := m.failed || sn.op.FlushQuota?,
      disk := if stage.Renaming? && cleaned then m.disk.RemoveTmp() else m.disk).Return(t, pc)
  }

  function Installed(m: Machine, t: nat, sn: Snapshot, install: Install): Machine {
    var book := m.book.WithLastFate(Committed);
    var answered := book.(answers := book.answers + [Saved(Last(book.snapshots))]);
    var m' :=
      match (install, sn.op)
      case (InstallPool(pool), MutatePool(f)) =>
        m.ChangePool(pool, ByMutation(f)).(book := answered)
      case (InstallRegistry(registry), MutateRegistry(g)) =>
        m.(live := m.live.(registry := registry), past := m.past.RegistryBecame(registry, g),
           book := answered.(savedBy := Last(book.snapshots)))
      case _ => m.(book := book);
    m'.Return(t, Writing(sn, install, Done))
  }

  /** A quota update with the pool locked. */
  function ApplyUpdate(m: Machine, t: nat, update: Pool -> Pool, early: bool): Machine {
    var after := update(m.live.pool);
    var changed := !SamePool(m.live.pool, after);
    m.ChangePool(after, ByUpdate(update)).(threads :=
      m.threads.(poolOwner := Some(t), unmarked := if changed then m.threads.unmarked + {t} else m.threads.unmarked)
      .Goto(t, UpdateApplied(changed, early)))
  }

  /** Some callers mark the change before they drop the pool lock, others after. */
  function EndUpdate(m: Machine, t: nat, changed: bool, early: bool): Machine {
    if changed && !early then m.(threads := m.threads.(poolOwner := None).Goto(t, MustMark))
    else
      m.(dirty := m.dirty || changed,
      threads := m.threads.(unmarked := m.threads.unmarked - {t}).Return(t, UpdateApplied(changed, early)))
  }

  function Mark(m: Machine, t: nat): Machine {
    m.(dirty := true, threads := m.threads.(unmarked := m.threads.unmarked - {t}).Goto(t, Idle))
  }

  function ReadRegistry(m: Machine, t: nat): Machine {
    m.(book := m.book.(answers := m.book.answers + [Read(m.book.savedBy, m.live.registry)])).Goto(t, Idle)
  }

  /** A schedule: who steps, and what the environment decides. A step that
      waits for a lock changes nothing. */
  function Run(m: Machine, schedule: seq<(nat, Choice)>): Machine
    decreases |schedule|
  {
    if schedule == [] then m
    else
      var before := Run(m, schedule[..|schedule| - 1]);
      var (t, c) := schedule[|schedule| - 1];
      match Step(before, t, c)
      case None => before
      case Some(after) => after
  }

  // ---------------------------------------------------------------- the invariant

  ghost predicate Locks(th: Threads) {
    forall t: nat ::
      && (th.writeOwner == Some(t) <==> HoldsWrite(th.At(t)))
      && (th.poolOwner == Some(t) <==> HoldsPoolLock(th.At(t)))
      && (th.carriedOwner == Some(t) <==> HoldsCarried(th.At(t)))
      && (t in th.unmarked <==> Unmarked(th.At(t)))
  }

  ghost predicate Follows(before: Pool, event: PoolEvent, after: Pool) {
    match event
    case ByMutation(f) => f(before) == Some(after)
    case ByUpdate(update) => update(before) == after
  }

  /** Every live value came from the one before it by a recorded event. */
  ghost predicate History(live: Live, past: Past) {
    && |past.pools| == |past.poolLog| + 1 && past.pools[|past.pools| - 1] == live.pool
    && |past.registries| == |past.registryLog| + 1 && past.registries[|past.registries| - 1] == live.registry
    && (forall i :: 0 <= i < |past.poolLog| ==> Follows(past.pools[i], past.poolLog[i], past.pools[i + 1]))
    && (forall i :: 0 <= i < |past.registryLog| ==>
          past.registryLog[i](past.registries[i]) == Some(past.registries[i + 1]))
  }

  /** A snapshot's state is its operation applied to the versions it names. */
  ghost predicate Means(past: Past, sn: Snapshot) {
    && sn.pool < |past.pools| && sn.registry < |past.registries|
    && match sn.op
       case MutatePool(f) =>
         && f(past.pools[sn.pool]).Some?
         && sn.state == StateOf(f(past.pools[sn.pool]).value, past.registries[sn.registry])
       case MutateRegistry(g) =>
         && g(past.registries[sn.registry]).Some?
         && sn.state == StateOf(past.pools[sn.pool], g(past.registries[sn.registry]).value)
       case FlushQuota(_) => sn.state == StateOf(past.pools[sn.pool], past.registries[sn.registry])
  }

  /** A committed mutation's result is the next live version. */
  ghost predicate TookEffect(past: Past, sn: Snapshot) {
    match sn.op
    case MutatePool(f) =>
      sn.pool + 1 < |past.pools| && f(past.pools[sn.pool]) == Some(past.pools[sn.pool + 1])
    case MutateRegistry(g) =>
      sn.registry + 1 < |past.registries| && g(past.registries[sn.registry]) == Some(past.registries[sn.registry + 1])
    case FlushQuota(_) => true
  }

  ghost predicate After(earlier: Snapshot, later: Snapshot) {
    earlier.ReachesPool() <= later.pool && earlier.ReachesRegistry() <= later.registry
  }

  ghost predicate InOrder(snapshots: seq<Snapshot>) {
    forall i, j :: 0 <= i < j < |snapshots| ==> After(snapshots[i], snapshots[j])
  }

  ghost predicate Sound(past: Past, snapshots: seq<Snapshot>, settled: nat) {
    && 0 < settled <= |snapshots|
    && (forall i :: 0 <= i < |snapshots| ==> Means(past, snapshots[i]))
    && (forall i :: 0 <= i < |snapshots| && snapshots[i].fate.Committed? ==>
          i < settled && TookEffect(past, snapshots[i]))
    && InOrder(snapshots)
  }

  ghost predicate Answered(snapshots: seq<Snapshot>, settled: nat, a: Answer) {
    && a.sn < settled && a.sn < |snapshots|
    && match a
       case Saved(_) => snapshots[a.sn].fate.Committed?
       case Read(_, registry) => HoldsRegistry(snapshots[a.sn].state, registry)
  }

  /** Every answer given so far, and the one a reader would get now. */
  ghost predicate Answers(registry: Registry, book: Book) {
    && Answered(book.snapshots, book.settled, Read(book.savedBy, registry))
    && (forall i :: 0 <= i < |book.answers| ==> Answered(book.snapshots, book.settled, book.answers[i]))
  }

  /** `inode` holds exactly `state`, and a crash cannot change that. */
  ghost predicate Represents(codec: Codec, inode: Option<Inode>, state: State) {
    match inode
    case None => state == DEFAULT_STATE
    case Some(i) => i.synced && codec.decode(i.bytes) == Some(state)
  }

  /** The file is the last snapshot, the directory's last fsync left snapshot
      `settled - 1`, and the renames since are the snapshots between. */
  ghost predicate OnDisk(codec: Codec, file: Option<Inode>, entry: Option<Inode>, pending: seq<Inode>,
                         snapshots: seq<Snapshot>, settled: nat)
  {
    && codec.Faithful()
    && 0 < settled <= |snapshots|
    && Represents(codec, file, snapshots[|snapshots| - 1].state)
    && Represents(codec, entry, snapshots[settled - 1].state)
    && |pending| == |snapshots| - settled
    && (forall i :: 0 <= i < |pending| ==> Represents(codec, Some(pending[i]), snapshots[settled + i].state))
  }

  /** A pool read earlier still shows the live durable part, or the change
      since is noted: the flag is set, or a thread is about to set it. */
  predicate Caught(live: Pool, noted: bool, pool: Pool) {
    SamePool(pool, live) || noted
  }

  ghost predicate Beyond(snapshots: seq<Snapshot>, pool: nat, registry: nat) {
    forall i :: 0 <= i < |snapshots| ==>
      snapshots[i].ReachesPool() <= pool && snapshots[i].ReachesRegistry() <= registry
  }

  ghost predicate TmpHolds(tmp: Option<Inode>, bytes: Bytes, stage: Stage) {
    match stage
    case Filling(written) => written <= |bytes| && tmp == Some(Inode(bytes[..written], false))
    case Syncing => tmp == Some(Inode(bytes, false))
    case Renaming => tmp == Some(Inode(bytes, true))
    case _ => true
  }

  ghost predicate InstallMatches(live: Live, past: Past, noted: bool, sn: Snapshot, install: Install) {
    match sn.op
    case MutatePool(f) =>
      install.InstallPool? && f(live.pool) == Some(install.pool) && sn.pool == |past.pools| - 1
    case MutateRegistry(g) =>
      && install.InstallRegistry? && g(live.registry) == Some(install.registry)
      && sn.pool < |past.pools| && Caught(live.pool, noted, past.pools[sn.pool])
    case FlushQuota(_) =>
      install.InstallNothing? && sn.pool < |past.pools| && Caught(live.pool, noted, past.pools[sn.pool])
  }

  ghost predicate SnapshotCurrent(live: Live, past: Past, noted: bool, sn: Snapshot, install: Install) {
    && sn.fate.InFlight? && Means(past, sn) && sn.registry == |past.registries| - 1
    && InstallMatches(live, past, noted, sn, install)
  }

  /** What the one thread inside `state_write` may rely on: what it read is
      still current, or its being outdated is noted. */
  ghost predicate Current(live: Live, past: Past, snapshots: seq<Snapshot>, noted: bool, w: Pc) {
    match w
    case WantsCarried(op, pool, version) => (
      match op
      case MutatePool(f) => f(live.pool) == Some(pool) && version == |past.pools| - 1
      case FlushQuota(_) => pool == live.pool && version == |past.pools| - 1
      case MutateRegistry(_) =>
        && version < |past.pools| && pool == past.pools[version] && Caught(live.pool, noted, pool)
        && past.registries != [] && Beyond(snapshots, version, |past.registries| - 1))
    case Writing(sn, install, stage) =>
      && SnapshotCurrent(live, past, noted, sn, install)
      && (BeforeRename(stage) ==> Beyond(snapshots, sn.pool, sn.registry))
    case _ => true
  }

  /** How far its write is. */
  ghost predicate InPlace(codec: Codec, tmp: Option<Inode>, snapshots: seq<Snapshot>, settled: nat, w: Pc) {
    w.Writing? ==>
      if BeforeRename(w.stage) then TmpHolds(tmp, codec.encode(w.sn.state), w.stage)
      else
        && snapshots != [] && snapshots[|snapshots| - 1] == w.sn
        && (w.stage.Done? ==> settled == |snapshots|)
  }

  /** The writer that put the last snapshot in place has not made it live yet. */
  predicate MidCommit(pc: Pc) {
    pc.Writing? && !BeforeRename(pc.stage)
  }

  /** The flag is down because a flush carries the change to the file. */
  predicate FlushUnderWay(pc: Pc) {
    || (pc.WantsCarried? && pc.op.FlushQuota?)
    || (pc.Writing? && pc.sn.op.FlushQuota? && BeforeRename(pc.stage))
  }

  ghost predicate Fresh(live: Live, snapshots: seq<Snapshot>, failed: bool, noted: bool, w: Pc) {
    snapshots != [] &&
    var last := snapshots[|snapshots| - 1].state;
    && (failed || HoldsRegistry(last, live.registry) || (MidCommit(w) && w.sn.op.MutateRegistry?))
    && (|| failed || noted || HoldsPool(last, live.pool)
        || FlushUnderWay(w) || (MidCommit(w) && w.sn.op.MutatePool?))
  }

  /** The invariant but for the locks, with the writer at `w`. */
  ghost predicate Rest(m: Machine, w: Pc) {
    && History(m.live, m.past)
    && Sound(m.past, m.book.snapshots, m.book.settled)
    && Answers(m.live.registry, m.book)
    && OnDisk(m.codec, m.disk.file, m.disk.settled, m.disk.pending, m.book.snapshots, m.book.settled)
    && Current(m.live, m.past, m.book.snapshots, m.Noted(), w)
    && InPlace(m.codec, m.disk.tmp, m.book.snapshots, m.book.settled, w)
    && Fresh(m.live, m.book.snapshots, m.failed, m.Noted(), w)
  }

  ghost predicate Inv(m: Machine) {
    Locks(m.threads) && Rest(m, m.threads.Writer())
  }

  /** Startup: every thread idle, the registry the file's own, and the pool the
      file's own or, when restoring it expired quota, the flag already set. */
  ghost predicate Initial(m: Machine) {
    && m.codec.Faithful()
    && m.threads == Threads(None, None, None, map[], {})
    && !m.failed && m.book.answers == []
    && History(m.live, m.past) && |m.past.registries| == 1
    && |m.book.snapshots| == 1 && m.book.settled == 1 && m.book.savedBy == 0
    && m.book.snapshots[0].op.FlushQuota? && m.book.snapshots[0].fate.Committed?
    && Means(m.past, m.book.snapshots[0])
    && m.disk.pending == [] && m.disk.settled == m.disk.file
    && Represents(m.codec, m.disk.file, m.book.snapshots[0].state)
    && (m.dirty || HoldsPool(m.book.snapshots[0].state, m.live.pool))
  }
}
