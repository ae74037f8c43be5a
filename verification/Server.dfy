/** The running instance's durable half, one call at a time: the pool, the
    carried registry, the dirty flag and the state file, as the methods of the
    server change them. `Interleaving` has the same calls step by step. */
module Server {
  import opened Wrappers
  import opened Durable

  datatype Stop = Signal | Unwritable

  datatype MutateError<E> = Refused(error: E) | Persist

  /** Where, if anywhere, a write's file-system calls fail. */
  datatype WriteFate = Succeeds | FailsCreating | FailsFilling(after: nat) | FailsSyncing | FailsRenaming | FailsSyncingDirectory

  /** No call of the write fails: a disk that fills up past the last byte does not either. */
  predicate GoesThrough(fate: WriteFate, bytes: Bytes) {
    fate.Succeeds? || (fate.FailsFilling? && fate.after >= |bytes|)
  }

  class Server {
    const codec: Codec
    var pool: Pool
    var carried: Registry
    var quotaDirty: bool
    var disk: Disk
    var stop: Option<Stop>

    constructor (codec: Codec, pool: Pool, carried: Registry, disk: Disk)
      ensures this.codec == codec && this.pool == pool && this.carried == carried && this.disk == disk
      ensures !quotaDirty && stop == None
    {
      this.codec, this.pool, this.carried, this.disk := codec, pool, carried, disk;
      quotaDirty, stop := false, None;
    }

    function OnFile(): Option<State>
      reads this
    {
      codec.Load(disk.Content())
    }

    function Live(): State
      reads this
    {
      StateOf(pool, carried)
    }

    /** Temporary file, contents a piece at a time, fsync, rename, directory
        fsync. `sizes` is how much each write call takes. */
    method WritePrivateAtomic(bytes: Bytes, fate: WriteFate, sizes: nat -> nat) returns (ok: bool)
      modifies this`disk
      ensures ok <==> GoesThrough(fate, bytes)
      ensures ok ==> disk == Disk(Some(Inode(bytes, true)), None, Some(Inode(bytes, true)), [])
      ensures fate.FailsSyncingDirectory? ==>
                disk == Disk(Some(Inode(bytes, true)), None, old(disk.settled), old(disk.pending) + [Inode(bytes, true)])
      ensures !ok && !fate.FailsSyncingDirectory? ==>
                disk.file == old(disk.file) && disk.settled == old(disk.settled) && disk.pending == old(disk.pending)
    {
      if fate.FailsCreating? {
        return false;
      }
      disk := disk.OpenTmp();
      var written := 0;
      while written < |bytes|
        invariant written <= |bytes|
        invariant fate.FailsFilling? ==> written <= fate.after
        invariant disk == old(disk).(tmp := Some(Inode(bytes[..written], false)))
      {
        var left := |bytes| - written;
        var n := if sizes(written) == 0 || sizes(written) > left then left else sizes(written);
        if fate.FailsFilling? && written + n > fate.after {
          return false;
        }
        assert bytes[..written] + bytes[written..written + n] == bytes[..written + n];
        disk := disk.Append(bytes[written..written + n]);
        written := written + n;
      }
      assert bytes[..|bytes|] == bytes;
      if fate.FailsSyncing? {
        return false;
      }
      disk := disk.SyncTmp();
      if fate.FailsRenaming? {
        disk := disk.RemoveTmp();
        return false;
      }
      disk := disk.Rename();
      if fate.FailsSyncingDirectory? {
        return false;
      }
      disk := disk.SyncDirectory();
      return true;
    }

    /** Written durably before it takes effect or reports success. The file and
        the live registry are both as they were after a failed write exactly
        when it failed before its rename, or would have written what was there. */
    method MutateRegistry<T, E>(f: Registry -> Result<(Registry, T), E>, fate: WriteFate, sizes: nat -> nat)
      returns (r: Result<T, MutateError<E>>)
      requires codec.Faithful()
      modifies this`carried, this`disk
      ensures f(old(carried)).Err? ==>
                r == Err(Refused(f(old(carried)).error)) && carried == old(carried) && disk == old(disk)
      ensures f(old(carried)).Ok? ==>
                && (r.Ok? || r.error.Persist?)
                && (r.Ok? <==> GoesThrough(fate, codec.encode(StateOf(pool, f(old(carried)).value.0))))
      ensures r.Ok? ==>
                && f(old(carried)).Ok? && Ok((carried, r.value)) == f(old(carried))
                && OnFile() == Some(Live()) && disk.settled == disk.file && disk.pending == []
      ensures r.Err? ==> carried == old(carried)
      ensures r.Err? && r.error.Persist? ==>
                && f(old(carried)).Ok?
                && (OnFile() == old(OnFile()) <==>
                    !fate.FailsSyncingDirectory?
                    || old(OnFile()) == Some(StateOf(pool, f(old(carried)).value.0)))
    {
      match f(carried)
      case Err(e) =>
        return Err(Refused(e));
      case Ok((candidate, out)) =>
        var ok := WritePrivateAtomic(codec.encode(StateOf(pool, candidate)), fate, sizes);
        if !ok {
          return Err(Persist);
        }
        carried := candidate;
        return Ok(out);
    }

    /** The candidate is written durably before it becomes the live pool. */
    method MutatePool<T, E>(f: Pool -> Result<(Pool, T), E>, fate: WriteFate, sizes: nat -> nat)
      returns (r: Result<T, MutateError<E>>)
      requires codec.Faithful()
      modifies this`pool, this`disk
      ensures f(old(pool)).Err? ==>
                r == Err(Refused(f(old(pool)).error)) && pool == old(pool) && disk == old(disk)
      ensures f(old(pool)).Ok? ==>
                && (r.Ok? || r.error.Persist?)
                && (r.Ok? <==> GoesThrough(fate, codec.encode(StateOf(f(old(pool)).value.0, carried))))
      ensures r.Ok? ==>
                && f(old(pool)).Ok? && Ok((pool, r.value)) == f(old(pool))
                && OnFile() == Some(Live()) && disk.settled == disk.file && disk.pending == []
      ensures r.Err? ==> pool == old(pool)
      ensures r.Err? && r.error.Persist? ==>
                && f(old(pool)).Ok?
                && (OnFile() == old(OnFile()) <==>
                    !fate.FailsSyncingDirectory?
                    || old(OnFile()) == Some(StateOf(f(old(pool)).value.0, carried)))
    {
      match f(pool)
      case Err(e) =>
        return Err(Refused(e));
      case Ok((candidate, out)) =>
        var ok := WritePrivateAtomic(codec.encode(StateOf(candidate, carried)), fate, sizes);
        if !ok {
          return Err(Persist);
        }
        pool := candidate;
        return Ok(out);
    }

    method MarkQuotaDirty()
      modifies this`quotaDirty
      ensures quotaDirty
    {
      quotaDirty := true;
    }

    /** Expires quota, takes the flag, and writes when either says there is
        something to write. `expire` reports whether it changed anything. A
        failed write has already taken the flag down. */
    method FlushQuota(expire: Pool -> (Pool, bool), fate: WriteFate, sizes: nat -> nat) returns (ok: bool)
      requires codec.Faithful()
      requires !expire(pool).1 ==> SamePool(expire(pool).0, pool)
      modifies this`pool, this`quotaDirty, this`disk
      ensures pool == expire(old(pool)).0 && !quotaDirty
      ensures ok <==> (!old(quotaDirty) && !expire(old(pool)).1) || GoesThrough(fate, codec.encode(Live()))
      ensures ok && (old(quotaDirty) || expire(old(pool)).1) ==>
                OnFile() == Some(Live()) && disk.settled == disk.file && disk.pending == []
      ensures ok && (old(quotaDirty) || old(OnFile()) == Some(old(Live()))) ==> OnFile() == Some(Live())
      ensures !old(quotaDirty) && !expire(old(pool)).1 ==> ok && disk == old(disk)
      ensures !ok && !fate.FailsSyncingDirectory? ==> OnFile() == old(OnFile())
      ensures !ok && fate.FailsSyncingDirectory? ==> OnFile() == Some(Live())
    {
      var (after, expired) := expire(pool);
      pool := after;
      var marked := quotaDirty;
      quotaDirty := false;
      if !(expired || marked) {
        return true;
      }
      ok := WritePrivateAtomic(codec.encode(StateOf(pool, carried)), fate, sizes);
    }

    /** The first reason to stop stands. */
    method RequestStop(why: Stop)
      modifies this`stop
      ensures stop == if old(stop).None? then Some(why) else old(stop)
    {
      if stop.None? {
        stop := Some(why);
      }
    }
  }
}
