/** What a call is answered: in every schedule a mutation none of whose effects
    fails is refused by its own closure or ends live and answered, and whenever
    the locks are free there is a schedule in which it does. */
module InterleavingAnswers {
  import opened Wrappers
  import opened Durable
  import opened Interleaving
  import opened InterleavingProofs
  import opened InterleavingTheorems

  /** The thread is inside this mutation's call. */
  ghost predicate Serves(pc: Pc, op: Op) {
    match pc
    case WantsWriteLock(o) => o == op
    case WantsPool(o) => o == op
    case WantsCarried(o, _, _) => o == op
    case Writing(sn, _, _) => sn.op == op
    case _ => false
  }

  /** The closure refuses the live value. */
  ghost predicate Refuses(op: Op, live: Live) {
    match op
    case MutatePool(f) => f(live.pool).None?
    case MutateRegistry(g) => g(live.registry).None?
    case FlushQuota(_) => false
  }

  /** What the closure makes of the live value, when it accepts. */
  ghost predicate Accepts(op: Op, live: Live, after: Live) {
    match op
    case MutatePool(f) => f(live.pool) == Some(after.pool) && after.registry == live.registry
    case MutateRegistry(g) => g(live.registry) == Some(after.registry) && after.pool == live.pool
    case FlushQuota(_) => false
  }

  /** Every effect of `t`'s in the schedule succeeds. */
  ghost predicate Healthy(schedule: seq<(nat, Choice)>, t: nat) {
    forall i :: 0 <= i < |schedule| && schedule[i].0 == t ==> schedule[i].1.Go? && schedule[i].1.ok
  }

  // ---------------------------------------------------------------- one step

  lemma OwnStepServes(m: Machine, t: nat, c: Choice, op: Op)
    requires Serves(m.threads.At(t), op) && c.Go? && c.ok && Step(m, t, c).Some?
    requires !Step(m, t, c).value.threads.At(t).Idle?
    ensures Serves(Step(m, t, c).value.threads.At(t), op)
  {
    var pc := m.threads.At(t);
    if pc.Writing? {
      WriteServes(m, t, pc.sn, pc.install, pc.stage, c);
    }
    hide WriteStep;
  }

  lemma WriteServes(m: Machine, t: nat, sn: Snapshot, install: Install, stage: Stage, c: Choice)
    requires c.Go? && c.ok
    ensures var later := WriteStep(m, t, sn, install, stage, c).threads.At(t);
            later.Idle? || (later.Writing? && later.sn == sn)
  {
    hide Failed;
  }

  lemma StepServes(m: Machine, u: nat, c: Choice, t: nat, op: Op)
    requires Inv(m) && Serves(m.threads.At(t), op) && (u == t ==> c.Go? && c.ok) && Step(m, u, c).Some?
    requires !Step(m, u, c).value.threads.At(t).Idle?
    ensures Serves(Step(m, u, c).value.threads.At(t), op) && Inv(Step(m, u, c).value)
  {
    hide *;
    StepKeepsInv(m, u, c);
    if u == t {
      OwnStepServes(m, t, c, op);
    } else {
      OthersStay(m, u, c);
    }
  }

  lemma InsideBefore(m: Machine, schedule: seq<(nat, Choice)>, t: nat)
    requires InsideCall(m, schedule, t) && schedule != []
    ensures var n := |schedule| - 1;
            InsideCall(m, schedule[..n], t) && !Run(m, schedule).threads.At(t).Idle?
  {
    hide Run;
    var n := |schedule| - 1;
    forall i | 0 <= i <= n
      ensures !Run(m, schedule[..n][..i]).threads.At(t).Idle?
    {
      assert schedule[..n][..i] == schedule[..i];
    }
    assert schedule[..n + 1] == schedule;
  }

  lemma RunLast(m: Machine, schedule: seq<(nat, Choice)>)
    requires schedule != []
    ensures var (front, last) := (schedule[..|schedule| - 1], schedule[|schedule| - 1]);
            var next := Step(Run(m, front), last.0, last.1);
            Run(m, schedule) == if next.Some? then next.value else Run(m, front)
  {
    hide Step;
  }

  lemma {:induction false} ServesAllAlong(m: Machine, schedule: seq<(nat, Choice)>, t: nat, op: Op)
    requires Inv(m) && Serves(m.threads.At(t), op) && Healthy(schedule, t) && InsideCall(m, schedule, t)
    ensures Serves(Run(m, schedule).threads.At(t), op) && Inv(Run(m, schedule))
    decreases |schedule|
  {
    if schedule == [] {
      hide Inv, Serves;
    } else {
      hide Run, Step, Inv, Serves, InsideCall;
      var n := |schedule| - 1;
      InsideBefore(m, schedule, t);
      ServesAllAlong(m, schedule[..n], t, op);
      RunLast(m, schedule);
      var before := Run(m, schedule[..n]);
      if Step(before, schedule[n].0, schedule[n].1).Some? {
        StepServes(before, schedule[n].0, schedule[n].1, t, op);
      }
    }
  }

  /** The step on which the call returns: refused with nothing touched, or the
      snapshot in the file, settled, live and answered. */
  lemma ReturnsRefusedOrLive(m: Machine, t: nat, c: Choice, op: Op)
    requires Inv(m) && Serves(m.threads.At(t), op) && !op.FlushQuota? && c.Go? && c.ok
    requires Step(m, t, c).Some? && Step(m, t, c).value.threads.At(t).Idle?
    ensures var after := Step(m, t, c).value;
            if Refuses(op, m.live) then after.live == m.live && after.disk == m.disk && after.book == m.book
            else
              && Accepts(op, m.live, after.live)
              && after.book.answers == m.book.answers + [Saved(Last(m.book.snapshots))]
              && after.disk == m.disk && m.book.snapshots != [] && m.book.settled == |m.book.snapshots|
              && m.book.snapshots[Last(m.book.snapshots)].op == op
  {
    var pc := m.threads.At(t);
    match pc
    case WantsPool(_) => hide TakeCarried, WriteStep;
    case WantsCarried(_, _, _) => WantsCarriedReturns(m, t, op);
    case Writing(sn, install, stage) => WritingReturns(m, t, c, sn, install, stage);
    case _ =>
  }

  lemma WantsCarriedReturns(m: Machine, t: nat, op: Op)
    requires Inv(m) && m.threads.At(t).WantsCarried? && m.threads.At(t).op == op && !op.FlushQuota?
    requires TakeCarried(m, t, op, m.threads.At(t).pool, m.threads.At(t).version).threads.At(t).Idle?
    ensures var after := TakeCarried(m, t, op, m.threads.At(t).pool, m.threads.At(t).version);
            Refuses(op, m.live) && after.live == m.live && after.disk == m.disk && after.book == m.book
  {
    hide Inv;
  }

  lemma WritingReturns(m: Machine, t: nat, c: Choice, sn: Snapshot, install: Install, stage: Stage)
    requires Inv(m) && m.threads.At(t) == Writing(sn, install, stage) && !sn.op.FlushQuota? && c.Go? && c.ok
    requires WriteStep(m, t, sn, install, stage, c).threads.At(t).Idle?
    ensures var after := WriteStep(m, t, sn, install, stage, c);
            && !Refuses(sn.op, m.live) && Accepts(sn.op, m.live, after.live)
            && after.book.answers == m.book.answers + [Saved(Last(m.book.snapshots))]
            && after.disk == m.disk && m.book.snapshots != [] && m.book.settled == |m.book.snapshots|
            && m.book.snapshots[Last(m.book.snapshots)].op == sn.op
  {
    hide *;
    WriterIsKnown(m, t);
    OnlyTheEndReturns(m, t, c, sn, install, stage);
    AtTheEnd(m, sn, install);
    InstalledAnswers(m, t, sn, install);
  }

  lemma OnlyTheEndReturns(m: Machine, t: nat, c: Choice, sn: Snapshot, install: Install, stage: Stage)
    requires c.Go? && c.ok && m.threads.At(t) == Writing(sn, install, stage)
    requires WriteStep(m, t, sn, install, stage, c).threads.At(t).Idle?
    ensures stage.Done? && WriteStep(m, t, sn, install, stage, c) == Installed(m, t, sn, install)
  {
    hide Failed;
  }

  lemma InstalledAnswers(m: Machine, t: nat, sn: Snapshot, install: Install)
    requires InstallMatches(m.live, m.past, m.Noted(), sn, install) && !sn.op.FlushQuota?
    requires m.book.snapshots != [] && m.book.snapshots[|m.book.snapshots| - 1] == sn
    ensures var after := Installed(m, t, sn, install);
            && !Refuses(sn.op, m.live) && Accepts(sn.op, m.live, after.live)
            && after.book.answers == m.book.answers + [Saved(Last(m.book.snapshots))]
            && after.disk == m.disk && m.book.snapshots[Last(m.book.snapshots)].op == sn.op
  {
  }

  /** A write that is over: its snapshot is the last, settled, and still what its closure makes. */
  lemma AtTheEnd(m: Machine, sn: Snapshot, install: Install)
    requires Rest(m, Writing(sn, install, Done))
    ensures InstallMatches(m.live, m.past, m.Noted(), sn, install)
    ensures m.book.snapshots != [] && m.book.snapshots[|m.book.snapshots| - 1] == sn && m.book.settled == |m.book.snapshots|
  {
    hide History, Sound, Answers, OnDisk, Fresh, InstallMatches;
  }

  lemma WriterIsKnown(m: Machine, t: nat)
    requires Inv(m) && m.threads.At(t).Writing?
    ensures m.threads.Writer() == m.threads.At(t) && Rest(m, m.threads.At(t))
  {
    hide Rest;
    assert m.threads.writeOwner == Some(t);
  }

  /** Over every schedule: a mutation none of whose own effects fails returns
      refused by its closure, with nothing touched, or live and answered. */
  lemma HealthyMutationAnswers(m: Machine, schedule: seq<(nat, Choice)>, t: nat, op: Op, c: Choice)
    requires Inv(m) && m.threads.At(t) == WantsWriteLock(op) && !op.FlushQuota?
    requires Healthy(schedule + [(t, c)], t) && InsideCall(m, schedule, t)
    requires Step(Run(m, schedule), t, c).Some? && Step(Run(m, schedule), t, c).value.threads.At(t).Idle?
    ensures var (now, after) := (Run(m, schedule), Run(m, schedule + [(t, c)]));
            if Refuses(op, now.live) then after.live == now.live && after.disk == now.disk && after.book == now.book
            else
              && Accepts(op, now.live, after.live)
              && after.book.answers == now.book.answers + [Saved(Last(now.book.snapshots))]
              && after.disk == now.disk && now.book.snapshots != [] && now.book.settled == |now.book.snapshots|
              && now.book.snapshots[Last(now.book.snapshots)].op == op
  {
    var all := schedule + [(t, c)];
    assert all[..|schedule|] == schedule && all[|schedule|] == (t, c);
    assert Healthy(schedule, t) by {
      forall i | 0 <= i < |schedule| && schedule[i].0 == t
        ensures schedule[i].1.Go? && schedule[i].1.ok
      {
        assert all[i] == schedule[i];
      }
    }
    ServesAllAlong(m, schedule, t, op);
    ReturnsRefusedOrLive(Run(m, schedule), t, c, op);
    hide Step, Inv, Serves, Refuses, Accepts;
  }

  /** A reader is given the live registry, and the machine records that it was. */
  lemma ReadersAreAnswered(m: Machine, t: nat, c: Choice)
    requires m.threads.At(t).WantsRegistry?
    ensures Step(m, t, c).Some? <==> m.threads.carriedOwner.None?
    ensures Step(m, t, c).Some? ==>
              && Step(m, t, c).value.book.answers == m.book.answers + [Read(m.book.savedBy, m.live.registry)]
              && Step(m, t, c).value.live == m.live
  {
  }

  // ---------------------------------------------------------------- there is such a schedule

  lemma FinishesFromRename(m: Machine, now: Machine, t: nat, sn: Snapshot, install: Install)
    requires CameTo(m, now, t, sn, install, Renaming, m.codec.encode(sn.state))
    ensures var end := Run(now, [(t, GOES), (t, GOES), (t, GOES)]);
            end == Installed(SyncDirectoryStep(RenameStep(now, t, sn, install), t, sn, install), t, sn, install)
  {
    var renamed := RenameStep(now, t, sn, install);
    var synced := SyncDirectoryStep(renamed, t, sn, install);
    var end := Installed(synced, t, sn, install);
    assert Step(now, t, GOES) == Some(renamed);
    assert Step(renamed, t, GOES) == Some(synced) && Step(synced, t, GOES) == Some(end);
    hide *;
    TwoSteps(renamed, synced, end, (t, GOES), (t, GOES));
    RunFrom(now, (t, GOES), [(t, GOES), (t, GOES)]);
    assert [(t, GOES)] + [(t, GOES), (t, GOES)] == [(t, GOES), (t, GOES), (t, GOES)];
  }

  /** The state a finished write leaves. */
  ghost predicate Finished(m: Machine, end: Machine, t: nat, sn: Snapshot, install: Install) {
    && end.threads.At(t).Idle? && end.codec == m.codec && end.dirty == m.dirty && !end.failed
    && (sn.op.FlushQuota? && install.InstallNothing? ==> end.live == m.live)
    && end.codec.Load(end.disk.Content()) == Some(sn.state) && end.disk.settled == end.disk.file && end.disk.pending == []
    && (sn.op.MutatePool? && install.InstallPool? ==>
          && end.live == m.live.(pool := install.pool)
          && end.book.answers == m.book.answers + [Saved(|m.book.snapshots|)])
    && (sn.op.MutateRegistry? && install.InstallRegistry? ==>
          && end.live == m.live.(registry := install.registry)
          && end.book.answers == m.book.answers + [Saved(|m.book.snapshots|)])
  }

  lemma FinishedAfterRename(m: Machine, now: Machine, t: nat, sn: Snapshot, install: Install)
    requires m.codec.Faithful() && CameTo(m, now, t, sn, install, Renaming, m.codec.encode(sn.state))
    ensures Finished(m, Installed(SyncDirectoryStep(RenameStep(now, t, sn, install), t, sn, install), t, sn, install),
                     t, sn, install)
  {
  }

  lemma WriteFinishes(m: Machine, t: nat, sn: Snapshot, install: Install) returns (schedule: seq<(nat, Choice)>)
    requires m.codec.Faithful() && m.threads.At(t) == Writing(sn, install, Opening)
    ensures Finished(m, Run(m, schedule), t, sn, install)
  {
    var bytes := m.codec.encode(sn.state);
    assert CameTo(m, m, t, sn, install, Opening, bytes);
    hide *;
    var created := GoesOn(m, m, t, sn, install, Opening);
    var filled := created;
    if bytes != [] {
      filled := GoesOn(m, created, t, sn, install, Filling(0));
    }
    var full := GoesOn(m, filled, t, sn, install, Filling(|bytes|));
    var synced := GoesOn(m, full, t, sn, install, Syncing);
    FinishesFromRename(m, synced, t, sn, install);
    FinishedAfterRename(m, synced, t, sn, install);
    schedule := [(t, GOES), (t, GOES), (t, GOES)];
    RunFrom(full, (t, GOES), schedule);
    schedule := [(t, GOES)] + schedule;
    RunFrom(filled, (t, GOES), schedule);
    schedule := [(t, GOES)] + schedule;
    if bytes != [] {
      RunFrom(created, (t, GOES), schedule);
      schedule := [(t, GOES)] + schedule;
    }
    RunFrom(m, (t, GOES), schedule);
    schedule := [(t, GOES)] + schedule;
  }

  ghost predicate LocksFree(m: Machine) {
    m.threads.writeOwner.None? && m.threads.poolOwner.None? && m.threads.carriedOwner.None?
  }

  /** From the call to the write. */
  lemma MutationReachesItsWrite(m: Machine, t: nat, op: Op) returns (ready: Machine, steps: seq<(nat, Choice)>)
    requires m.threads.At(t).Idle? && LocksFree(m) && !op.FlushQuota? && !Refuses(op, m.live)
    ensures |steps| == 4 && Run(m, steps) == ready
    ensures ready.live == m.live && ready.book == m.book && ready.codec == m.codec
    ensures var pc := ready.threads.At(t);
            && pc.Writing? && pc.stage == Opening && pc.sn.op == op
            && match op
               case MutatePool(f) =>
                 && pc.install == InstallPool(f(m.live.pool).value)
                 && pc.sn.state == StateOf(f(m.live.pool).value, m.live.registry)
               case MutateRegistry(g) =>
                 && pc.install == InstallRegistry(g(m.live.registry).value)
                 && pc.sn.state == StateOf(m.live.pool, g(m.live.registry).value)
               case FlushQuota(_) => true
  {
    var wanting := m.Goto(t, WantsWriteLock(op));
    var locked := TakeWriteLock(wanting, t, op);
    var built := TakePool(locked, t, op, false);
    var pc := built.threads.At(t);
    ready := TakeCarried(built, t, op, pc.pool, pc.version);
    assert Step(m, t, Start(op)) == Some(wanting) && Step(wanting, t, GOES) == Some(locked);
    assert Step(locked, t, GOES) == Some(built) && Step(built, t, GOES) == Some(ready);
    steps := [(t, Start(op)), (t, GOES), (t, GOES), (t, GOES)];
    hide *;
    TwoSteps(locked, built, ready, (t, GOES), (t, GOES));
    RunFrom(wanting, (t, GOES), [(t, GOES), (t, GOES)]);
    assert [(t, GOES)] + [(t, GOES), (t, GOES)] == [(t, GOES), (t, GOES), (t, GOES)];
    RunFrom(m, (t, Start(op)), [(t, GOES), (t, GOES), (t, GOES)]);
    assert [(t, Start(op))] + [(t, GOES), (t, GOES), (t, GOES)] == steps;
  }

  lemma {:induction false} RunOfTwo(m: Machine, first: seq<(nat, Choice)>, second: seq<(nat, Choice)>)
    ensures Run(m, first + second) == Run(Run(m, first), second)
    decreases |second|
  {
    hide Step;
    if second == [] {
      assert first + second == first;
    } else {
      var n := |second| - 1;
      RunOfTwo(m, first, second[..n]);
      var all := first + second;
      assert all[..|all| - 1] == first + second[..n] && all[|all| - 1] == second[n];
    }
  }

  /** Whenever the locks are free a mutation its closure accepts can run through:
      it ends live, answered and settled in the file. */
  lemma AcceptedMutationCanCommit(m: Machine, t: nat, op: Op) returns (schedule: seq<(nat, Choice)>)
    requires m.codec.Faithful() && m.threads.At(t).Idle? && LocksFree(m) && !op.FlushQuota? && !Refuses(op, m.live)
    ensures var end := Run(m, schedule);
            && Accepts(op, m.live, end.live) && end.threads.At(t).Idle?
            && end.book.answers == m.book.answers + [Saved(|m.book.snapshots|)]
            && end.codec.Load(end.disk.Content()) == Some(StateOf(end.live.pool, end.live.registry))
            && end.disk.settled == end.disk.file && end.disk.pending == []
  {
    var ready, steps := MutationReachesItsWrite(m, t, op);
    var pc := ready.threads.At(t);
    var rest := WriteFinishes(ready, t, pc.sn, pc.install);
    RunOfTwo(m, steps, rest);
    schedule := steps + rest;
    hide Run, Machine.Goto;
  }

  /** A flush with something to write, from the call to the write. */
  lemma FlushReachesItsWrite(m: Machine, t: nat, expire: Pool -> Pool) returns (ready: Machine, steps: seq<(nat, Choice)>)
    requires m.threads.At(t).Idle? && LocksFree(m) && (m.dirty || !SamePool(m.live.pool, expire(m.live.pool)))
    ensures |steps| == 4 && Run(m, steps) == ready
    ensures ready.live == m.live.(pool := expire(m.live.pool)) && ready.codec == m.codec && !ready.dirty
    ensures var pc := ready.threads.At(t);
            && pc.Writing? && pc.stage == Opening && pc.sn.op.FlushQuota? && pc.install.InstallNothing?
            && pc.sn.state == StateOf(expire(m.live.pool), m.live.registry)
  {
    var op := FlushQuota(expire);
    var wanting := m.Goto(t, WantsWriteLock(op));
    var locked := TakeWriteLock(wanting, t, op);
    var built := TakePool(locked, t, op, false);
    var pc := built.threads.At(t);
    ready := TakeCarried(built, t, op, pc.pool, pc.version);
    assert Step(m, t, Start(op)) == Some(wanting) && Step(wanting, t, GOES) == Some(locked);
    assert Step(locked, t, GOES) == Some(built) && Step(built, t, GOES) == Some(ready);
    steps := [(t, Start(op)), (t, GOES), (t, GOES), (t, GOES)];
    hide *;
    TwoSteps(locked, built, ready, (t, GOES), (t, GOES));
    RunFrom(wanting, (t, GOES), [(t, GOES), (t, GOES)]);
    assert [(t, GOES)] + [(t, GOES), (t, GOES)] == [(t, GOES), (t, GOES), (t, GOES)];
    RunFrom(m, (t, Start(op)), [(t, GOES), (t, GOES), (t, GOES)]);
    assert [(t, Start(op))] + [(t, GOES), (t, GOES), (t, GOES)] == steps;
  }

  /** Whenever the locks are free a flush with something to write can run
      through: the expiry is live, the file is the live state, the flag is down. */
  lemma FlushCanFinish(m: Machine, t: nat, expire: Pool -> Pool) returns (schedule: seq<(nat, Choice)>)
    requires m.codec.Faithful() && m.threads.At(t).Idle? && LocksFree(m)
    requires m.dirty || !SamePool(m.live.pool, expire(m.live.pool))
    ensures var end := Run(m, schedule);
            && end.live == m.live.(pool := expire(m.live.pool)) && end.threads.At(t).Idle? && !end.dirty && !end.failed
            && end.codec.Load(end.disk.Content()) == Some(StateOf(end.live.pool, end.live.registry))
            && end.disk.settled == end.disk.file && end.disk.pending == []
  {
    var ready, steps := FlushReachesItsWrite(m, t, expire);
    var pc := ready.threads.At(t);
    var rest := WriteFinishes(ready, t, pc.sn, pc.install);
    RunOfTwo(m, steps, rest);
    schedule := steps + rest;
    hide Run, Machine.Goto;
  }

  /** With the registry's lock free a read can run through, and is given the live registry. */
  lemma ReadCanFinish(m: Machine, t: nat)
    requires m.threads.At(t).Idle? && m.threads.carriedOwner.None?
    ensures var end := Run(m, [(t, StartRead), (t, GOES)]);
            && end.book.answers == m.book.answers + [Read(m.book.savedBy, m.live.registry)]
            && end.threads.At(t).Idle? && end.live == m.live
  {
    var wanting := m.Goto(t, WantsRegistry);
    var end := ReadRegistry(wanting, t);
    ReadSteps(m, t);
    hide *;
    TwoSteps(m, wanting, end, (t, StartRead), (t, GOES));
  }

  lemma ReadSteps(m: Machine, t: nat)
    requires m.threads.At(t).Idle? && m.threads.carriedOwner.None?
    ensures var wanting := m.Goto(t, WantsRegistry);
            var end := ReadRegistry(wanting, t);
            && Step(m, t, StartRead) == Some(wanting) && Step(wanting, t, GOES) == Some(end)
            && end.book.answers == m.book.answers + [Read(m.book.savedBy, m.live.registry)]
            && end.threads.At(t).Idle? && end.live == m.live
  {
    hide Run;
  }

  /** With the pool's lock free a quota update can be applied; it is live at once. */
  lemma UpdateCanApply(m: Machine, t: nat, update: Pool -> Pool, early: bool)
    requires m.threads.At(t).Idle? && m.threads.poolOwner.None?
    ensures var end := Run(m, [(t, StartUpdate(update, early)), (t, GOES)]);
            && end.live == m.live.(pool := update(m.live.pool))
            && end.threads.At(t).UpdateApplied?
  {
    var wanting := m.Goto(t, WantsPoolForUpdate(update, early));
    var end := ApplyUpdate(wanting, t, update, early);
    UpdateSteps(m, t, update, early);
    hide *;
    TwoSteps(m, wanting, end, (t, StartUpdate(update, early)), (t, GOES));
  }

  lemma UpdateSteps(m: Machine, t: nat, update: Pool -> Pool, early: bool)
    requires m.threads.At(t).Idle? && m.threads.poolOwner.None?
    ensures var wanting := m.Goto(t, WantsPoolForUpdate(update, early));
            var end := ApplyUpdate(wanting, t, update, early);
            && Step(m, t, StartUpdate(update, early)) == Some(wanting) && Step(wanting, t, GOES) == Some(end)
            && end.live == m.live.(pool := update(m.live.pool))
            && end.threads.At(t).UpdateApplied?
  {
    hide Run, SamePool;
  }
}
