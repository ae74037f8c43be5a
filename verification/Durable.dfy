/** The durable state and the file that holds it: what `State` carries, the
    codec between a state and its bytes, and a disk on which a write is a
    sequence of separate effects that a crash can fall between. */
module Durable {
  import opened Wrappers

  type Account(==, !new)
  type Quota(==, !new)
  type Client(==, !new)
  type Operator(==, !new)
  /** What a pool holds and never persists: sessions, holds, defaults. */
  type Runtime(!new)

  datatype Pool = Pool(accounts: seq<Account>, quota: seq<Quota>, runtime: Runtime)

  datatype Registry = Registry(clients: seq<Client>, operator: Option<Operator>)

  datatype State = State(
    accounts: seq<Account>,
    organizationQuota: seq<Quota>,
    clients: seq<Client>,
    operator: Option<Operator>)

  const DEFAULT_STATE := State([], [], [], None)

  /** `durable_state`: the pool's durable part beside the registry. */
  function StateOf(pool: Pool, registry: Registry): State {
    State(pool.accounts, pool.quota, registry.clients, registry.operator)
  }

  predicate SamePool(p: Pool, q: Pool) {
    p.accounts == q.accounts && p.quota == q.quota
  }

  predicate HoldsPool(s: State, p: Pool) {
    s.accounts == p.accounts && s.organizationQuota == p.quota
  }

  predicate HoldsRegistry(s: State, r: Registry) {
    s.clients == r.clients && s.operator == r.operator
  }

  datatype Codec = Codec(encode: State -> Bytes, decode: Bytes -> Option<State>) {
    ghost predicate Faithful() {
      forall s :: decode(encode(s)) == Some(s)
    }

    /** `load`: a missing file is the empty state. */
    function Load(content: Option<Bytes>): Option<State> {
      if content.None? then Some(DEFAULT_STATE) else decode(content.value)
    }
  }

  // ---------------------------------------------------------------- disk

  /** A file's bytes, and whether an fsync has made them survive a crash. */
  datatype Inode = Inode(bytes: Bytes, synced: bool)

  /** The state file's directory: the file's name, the one temporary name
      every write of this process shares, and what the directory entry may be
      after a crash: the entry at its last fsync, or any rename since. */
  datatype Disk = Disk(file: Option<Inode>, tmp: Option<Inode>, settled: Option<Inode>, pending: seq<Inode>) {

    function Content(): Option<Bytes> {
      if file.None? then None else Some(file.value.bytes)
    }

    /** Creates the temporary file or truncates the one left there. */
    function OpenTmp(): Disk {
      this.(tmp := Some(Inode([], false)))
    }

    function Append(piece: Bytes): Disk {
      if tmp.None? then this else this.(tmp := Some(Inode(tmp.value.bytes + piece, false)))
    }

    function SyncTmp(): Disk {
      if tmp.None? then this else this.(tmp := Some(tmp.value.(synced := true)))
    }

    function Rename(): Disk {
      if tmp.None? then this else Disk(tmp, None, settled, pending + [tmp.value])
    }

    function SyncDirectory(): Disk {
      this.(settled := file, pending := [])
    }

    function RemoveTmp(): Disk {
      this.(tmp := None)
    }

    /** What the path can hold once the machine is back after a crash now. */
    ghost predicate AfterCrash(content: Option<Bytes>) {
      || Survives(settled, content)
      || exists i :: 0 <= i < |pending| && Survives(Some(pending[i]), content)
    }
  }

  /** Bytes never fsynced may come back as anything at all. */
  ghost predicate Survives(inode: Option<Inode>, content: Option<Bytes>) {
    match inode
    case None => content == None
    case Some(i) => content.Some? && (i.synced ==> content.value == i.bytes)
  }

  /** Two writers sharing the temporary name without `state_write`: the second
      opens it between the first one's fsync and rename, and the first then
      renames the truncated file over the state. */
  lemma SharedTemporaryNameNeedsTheLock(disk: Disk, first: Bytes, second: Bytes)
    requires first != [] && second != []
    ensures var torn := disk.OpenTmp().Append(first).SyncTmp().OpenTmp().Rename();
            torn.Content() == Some([]) && torn.Content() != Some(first) && torn.Content() != Some(second)
    ensures forall content: Bytes ::
              disk.OpenTmp().Append(first).SyncTmp().OpenTmp().Rename().AfterCrash(Some(content))
  {
    var torn := disk.OpenTmp().Append(first).SyncTmp().OpenTmp().Rename();
    var last := |torn.pending| - 1;
    assert torn.pending[last] == Inode([], false);
    forall content: Bytes
      ensures torn.AfterCrash(Some(content))
    {
      assert Survives(Some(torn.pending[last]), Some(content));
    }
  }
}
