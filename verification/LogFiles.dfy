/** Size-rotated log files: the directory they live in, the writer that renames
    them, and what is left of everything appended. */
module LogFiles {

  /** `.1` is the newest rotated file. */
  datatype Name = Active | Rotated(n: nat)

  /** The names of one log directory and the contents behind them. An inode is
      known by its index; a new file takes the next one. */
  datatype Disk = Disk(names: map<Name, nat>, inodes: seq<string>)

  predicate Sound(d: Disk) {
    forall name :: name in d.names ==> d.names[name] < |d.inodes|
  }

  function OpenAppend(d: Disk): Disk {
    if Active in d.names then d
    else Disk(d.names[Active := |d.inodes|], d.inodes + [""])
  }

  function Remove(d: Disk, name: Name): Disk {
    d.(names := d.names - {name})
  }

  function Rename(d: Disk, from: Name, to: Name): Disk
    requires from in d.names
  {
    d.(names := (d.names - {from})[to := d.names[from]])
  }

  function Append(d: Disk, file: nat, bytes: string): Disk
    requires file < |d.inodes|
  {
    d.(inodes := d.inodes[file := d.inodes[file] + bytes])
  }

  const LF := "\n"

  function Flat(records: seq<string>): string {
    if records == [] then "" else records[0] + Flat(records[1..])
  }

  lemma {:induction false} FlatAppends(a: seq<string>, b: seq<string>)
    ensures Flat(a + b) == Flat(a) + Flat(b)
  {
    if a == [] {
      assert a + b == b;
    } else {
      hide *;
      FlatAppends(a[1..], b);
      FlatFirst(a);
      FlatFirst(a + b);
      assert (a + b)[1..] == a[1..] + b;
      Associates(a[0], Flat(a[1..]), Flat(b));
    }
  }

  lemma Associates<T>(a: seq<T>, b: seq<T>, c: seq<T>)
    ensures (a + b) + c == a + (b + c)
  {
  }

  lemma FlatFirst(records: seq<string>)
    requires records != []
    ensures Flat(records) == records[0] + Flat(records[1..])
  {
  }

  // ---------------------------------------------------------------- the log as a value

  /** The records of the active file and of each rotated one, `.1` first. A
      record is a line with its LF, or what an earlier writer left. */
  datatype Log = Log(active: seq<string>, rotated: seq<seq<string>>)

  predicate Overflows(active: seq<string>, record: string, maxBytes: nat) {
    |Flat(active)| > 0 && |Flat(active)| + |record| > maxBytes
  }

  function Rotate(log: Log, retained: nat): Log
    requires retained >= 1
  {
    var kept := if |log.rotated| < retained then log.rotated else log.rotated[..retained - 1];
    Log([], [log.active] + kept)
  }

  function AfterAppend(log: Log, record: string, maxBytes: nat, retained: nat): Log
    requires retained >= 1
  {
    var room := if Overflows(log.active, record, maxBytes) then Rotate(log, retained) else log;
    room.(active := room.active + [record])
  }

  function AfterAppends(log: Log, records: seq<string>, maxBytes: nat, retained: nat): Log
    requires retained >= 1
  {
    if records == [] then log
    else AfterAppend(AfterAppends(log, records[..|records| - 1], maxBytes, retained), records[|records| - 1], maxBytes, retained)
  }

  /** Oldest file first, the active one last. */
  function Oldest(files: seq<seq<string>>): seq<string> {
    if files == [] then [] else Oldest(files[1..]) + files[0]
  }

  function Kept(log: Log): seq<string> {
    Oldest([log.active] + log.rotated)
  }

  /** What this append throws away: the oldest file, and only when the retained
      count is reached. */
  function Dropped(log: Log, record: string, maxBytes: nat, retained: nat): seq<string>
    requires retained >= 1
  {
    if Overflows(log.active, record, maxBytes) && |log.rotated| >= retained then Oldest(log.rotated[retained - 1..])
    else []
  }

  function DroppedBy(log: Log, records: seq<string>, maxBytes: nat, retained: nat): seq<string>
    requires retained >= 1
  {
    if records == [] then []
    else
      var front := records[..|records| - 1];
      DroppedBy(log, front, maxBytes, retained)
      + Dropped(AfterAppends(log, front, maxBytes, retained), records[|records| - 1], maxBytes, retained)
  }

  lemma {:induction false} OldestSplits(a: seq<seq<string>>, b: seq<seq<string>>)
    ensures Oldest(a + b) == Oldest(b) + Oldest(a)
  {
    if a == [] {
      assert a + b == b;
    } else {
      OldestSplits(a[1..], b);
      assert (a + b)[1..] == a[1..] + b;
    }
  }

  lemma FirstFileApart(log: Log)
    ensures Kept(log) == Oldest(log.rotated) + log.active
  {
    assert ([log.active] + log.rotated)[1..] == log.rotated;
  }

  /** A rotation keeps every record but those of the files pushed out. */
  lemma RotationKeepsTheRest(log: Log, retained: nat)
    requires retained >= 1
    ensures (if |log.rotated| >= retained then Oldest(log.rotated[retained - 1..]) else []) + Kept(Rotate(log, retained)) == Kept(log)
  {
    var after := Rotate(log, retained);
    var kept := if |log.rotated| < retained then log.rotated else log.rotated[..retained - 1];
    assert after == Log([], [log.active] + kept);
    FirstFileApart(log);
    NewFirstFile(log.active, kept);
    hide Oldest, Kept;
    if |log.rotated| >= retained {
      OldestSplits(log.rotated[..retained - 1], log.rotated[retained - 1..]);
      assert log.rotated == log.rotated[..retained - 1] + log.rotated[retained - 1..];
      Associates(Oldest(log.rotated[retained - 1..]), Oldest(kept), log.active);
    } else {
      assert [] + Kept(after) == Kept(after);
    }
  }

  /** A new active file leaves what is kept as it was. */
  lemma NewFirstFile(active: seq<string>, rotated: seq<seq<string>>)
    ensures Kept(Log([], [active] + rotated)) == Oldest(rotated) + active
  {
    FirstFileApart(Log([], [active] + rotated));
    OldestSplits([active], rotated);
    OldestOfOne(active);
    hide Oldest, Kept;
    assert (Oldest(rotated) + active) + [] == Oldest(rotated) + active;
  }

  lemma OldestOfOne(file: seq<string>)
    ensures Oldest([file]) == file
  {
    assert Oldest([file]) == Oldest([]) + file == file;
  }

  /** One append loses nothing but what it drops, and adds its record at the end. */
  lemma AppendKeepsTheRest(log: Log, record: string, maxBytes: nat, retained: nat)
    requires retained >= 1
    ensures Dropped(log, record, maxBytes, retained) + Kept(AfterAppend(log, record, maxBytes, retained)) == Kept(log) + [record]
  {
    var room := if Overflows(log.active, record, maxBytes) then Rotate(log, retained) else log;
    RotationKeepsTheRest(log, retained);
    FirstFileApart(room);
    FirstFileApart(AfterAppend(log, record, maxBytes, retained));
  }

  /** The files, read from the oldest to the active one, are a suffix of
      everything ever appended; what is missing is the drops, in order. */
  lemma {:induction false} KeptIsASuffix(log: Log, records: seq<string>, maxBytes: nat, retained: nat)
    requires retained >= 1
    ensures DroppedBy(log, records, maxBytes, retained) + Kept(AfterAppends(log, records, maxBytes, retained))
            == Kept(log) + records
  {
    if records == [] {
      assert Kept(log) + records == Kept(log);
    } else {
      hide *;
      var front, last := records[..|records| - 1], records[|records| - 1];
      KeptIsASuffix(log, front, maxBytes, retained);
      OneAppendMore(log, records, maxBytes, retained);
      var before := AfterAppends(log, front, maxBytes, retained);
      AppendKeepsTheRest(before, last, maxBytes, retained);
      var gone, now := DroppedBy(log, front, maxBytes, retained), Dropped(before, last, maxBytes, retained);
      assert front + [last] == records;
      Accounted(gone, now, Kept(AfterAppend(before, last, maxBytes, retained)), Kept(before), Kept(log), front, last);
    }
  }

  lemma OneAppendMore(log: Log, records: seq<string>, maxBytes: nat, retained: nat)
    requires retained >= 1 && records != []
    ensures var front, last := records[..|records| - 1], records[|records| - 1];
            var before := AfterAppends(log, front, maxBytes, retained);
            && AfterAppends(log, records, maxBytes, retained) == AfterAppend(before, last, maxBytes, retained)
            && DroppedBy(log, records, maxBytes, retained)
               == DroppedBy(log, front, maxBytes, retained) + Dropped(before, last, maxBytes, retained)
  {
    hide AfterAppend, Dropped;
  }

  lemma Accounted<T>(gone: seq<T>, now: seq<T>, kept: seq<T>, keptBefore: seq<T>, start: seq<T>, front: seq<T>, last: T)
    requires now + kept == keptBefore + [last] && gone + keptBefore == start + front
    ensures (gone + now) + kept == start + (front + [last])
  {
    assert (gone + now) + kept == gone + (now + kept);
    assert gone + (keptBefore + [last]) == (gone + keptBefore) + [last];
  }

  predicate Fits(file: seq<string>, maxBytes: nat) {
    |Flat(file)| <= maxBytes || |file| == 1
  }

  /** Every file is within the limit or one oversized record, and the count is
      within the retained number. */
  predicate WithinLimits(log: Log, maxBytes: nat, retained: nat) {
    && |log.rotated| <= retained
    && (log.active == [] || Fits(log.active, maxBytes))
    && (forall i :: 0 <= i < |log.rotated| ==> log.rotated[i] != [] && Fits(log.rotated[i], maxBytes))
  }

  function Newer(log: Log, i: nat): seq<string>
    requires i < |log.rotated|
  {
    if i == 0 then log.active else log.rotated[i - 1]
  }

  predicate Needed(older: seq<string>, newer: seq<string>, maxBytes: nat) {
    newer != [] && |Flat(older)| + |newer[0]| > maxBytes
  }

  /** No file was rotated away early: it and the first record of the file after
      it overflow the limit together. */
  predicate RotatedForNeed(log: Log, maxBytes: nat) {
    forall i :: 0 <= i < |log.rotated| ==> Needed(log.rotated[i], Newer(log, i), maxBytes)
  }

  lemma FlatOfOneMore(active: seq<string>, record: string)
    ensures Flat(active + [record]) == Flat(active) + record
  {
    FlatAppends(active, [record]);
    assert Flat([record]) == record + Flat([]);
  }

  lemma AppendKeepsLimits(log: Log, record: string, maxBytes: nat, retained: nat)
    requires retained >= 1 && WithinLimits(log, maxBytes, retained)
    requires NoEmptyRecord(log.active)
    ensures WithinLimits(AfterAppend(log, record, maxBytes, retained), maxBytes, retained)
  {
    FlatOfOneMore(log.active, record);
    assert log.active != [] ==> |Flat(log.active)| > 0;
    assert log.active == [] ==> log.active + [record] == [record];
  }

  lemma AppendRotatesForNeed(log: Log, record: string, maxBytes: nat, retained: nat)
    requires retained >= 1 && RotatedForNeed(log, maxBytes)
    ensures RotatedForNeed(AfterAppend(log, record, maxBytes, retained), maxBytes)
  {
    var after := AfterAppend(log, record, maxBytes, retained);
    forall i | 0 <= i < |after.rotated|
      ensures Needed(after.rotated[i], Newer(after, i), maxBytes)
    {
      if !Overflows(log.active, record, maxBytes) {
        assert Needed(log.rotated[i], Newer(log, i), maxBytes);
      } else if i > 0 {
        assert Needed(log.rotated[i - 1], Newer(log, i - 1), maxBytes);
      }
    }
  }

  predicate NoEmptyRecord(records: seq<string>) {
    forall i :: 0 <= i < |records| ==> records[i] != ""
  }

  /** Both hold after every run of appends. */
  lemma {:induction false} AppendsKeepPacking(log: Log, records: seq<string>, maxBytes: nat, retained: nat)
    requires retained >= 1 && WithinLimits(log, maxBytes, retained)
    requires NoEmptyRecord(log.active) && NoEmptyRecord(records)
    ensures var after := AfterAppends(log, records, maxBytes, retained);
            && WithinLimits(after, maxBytes, retained) && NoEmptyRecord(after.active)
            && (RotatedForNeed(log, maxBytes) ==> RotatedForNeed(after, maxBytes))
  {
    if records != [] {
      var front, last := records[..|records| - 1], records[|records| - 1];
      AppendsKeepPacking(log, front, maxBytes, retained);
      var before := AfterAppends(log, front, maxBytes, retained);
      AppendKeepsLimits(before, last, maxBytes, retained);
      if RotatedForNeed(log, maxBytes) {
        AppendRotatesForNeed(before, last, maxBytes, retained);
      }
    }
  }

  // ---------------------------------------------------------------- the files on disk

  /** The names `.1` to `.retained` and the active one show this log: the rotated
      files are contiguous, no two names share a file, and each holds its
      records. Names past `.retained` are nobody's business. */
  ghost predicate Shows(d: Disk, log: Log, retained: nat) {
    && Sound(d) && Active in d.names && |log.rotated| <= retained
    && d.inodes[d.names[Active]] == Flat(log.active)
    && (forall n :: 1 <= n <= retained ==> (Rotated(n) in d.names <==> n <= |log.rotated|))
    && (forall n :: 1 <= n <= |log.rotated| ==>
          && d.inodes[d.names[Rotated(n)]] == Flat(log.rotated[n - 1])
          && d.names[Rotated(n)] != d.names[Active])
    && (forall m, n :: 1 <= m < n <= |log.rotated| ==> d.names[Rotated(m)] != d.names[Rotated(n)])
  }

  /** The name `.i` now stands for what `.(i-1)` stood for before. */
  predicate MovedUp(before: map<Name, nat>, after: map<Name, nat>, i: nat)
    requires i >= 2
  {
    && (Rotated(i) in after <==> Rotated(i - 1) in before)
    && (Rotated(i) in after ==> after[Rotated(i)] == before[Rotated(i - 1)])
  }

  predicate Untouched(before: map<Name, nat>, after: map<Name, nat>, name: Name) {
    && (name in after <==> name in before)
    && (name in after ==> after[name] == before[name])
  }

  /** The renames have come down to `.n`: the names above are moved, `.(n+1)` is
      free and the rest is as before. */
  ghost predicate MovedDownTo(before: map<Name, nat>, now: map<Name, nat>, n: nat, retained: nat) {
    && Untouched(before, now, Active)
    && (forall i :: 1 <= i <= n ==> Untouched(before, now, Rotated(i)))
    && Rotated(n + 1) !in now
    && (forall i :: n + 2 <= i <= retained ==> MovedUp(before, now, i))
  }

  lemma RenameMovesDown(before: map<Name, nat>, d: Disk, n: nat, retained: nat)
    requires 1 <= n < retained && MovedDownTo(before, d.names, n, retained)
    ensures var later := if Rotated(n) in d.names then Rename(d, Rotated(n), Rotated(n + 1)) else d;
            MovedDownTo(before, later.names, n - 1, retained)
  {
    var later := if Rotated(n) in d.names then Rename(d, Rotated(n), Rotated(n + 1)) else d;
    assert Untouched(before, d.names, Rotated(n));
    forall i | 1 <= i <= n - 1
      ensures Untouched(before, later.names, Rotated(i))
    {
      assert Untouched(before, d.names, Rotated(i));
    }
    forall i | n + 1 <= i <= retained
      ensures MovedUp(before, later.names, i)
    {
      assert i > n + 1 ==> MovedUp(before, d.names, i);
    }
  }

  lemma RotationShows(d: Disk, moved: Disk, log: Log, retained: nat)
    requires retained >= 1 && Shows(d, log, retained)
    requires moved.inodes == d.inodes && Sound(moved) && MovedDownTo(d.names, moved.names, 0, retained)
    ensures Shows(OpenAppend(Rename(moved, Active, Rotated(1))), Rotate(log, retained), retained)
  {
    var after := Rotate(log, retained);
    var later := OpenAppend(Rename(moved, Active, Rotated(1)));
    forall i | 2 <= i <= retained
      ensures MovedUp(d.names, later.names, i)
    {
      assert MovedUp(d.names, moved.names, i);
    }
    forall n | 1 <= n <= retained
      ensures Rotated(n) in later.names <==> n <= |after.rotated|
      ensures n <= |after.rotated| ==> later.inodes[later.names[Rotated(n)]] == Flat(after.rotated[n - 1])
      ensures n <= |after.rotated| ==> later.names[Rotated(n)] != later.names[Active]
    {
      if n >= 2 {
        assert MovedUp(d.names, later.names, n);
      }
    }
    forall m, n | 1 <= m < n <= |after.rotated|
      ensures later.names[Rotated(m)] != later.names[Rotated(n)]
    {
      assert MovedUp(d.names, later.names, n);
      if m >= 2 {
        assert MovedUp(d.names, later.names, m);
      }
    }
  }

  class RotatingFile {
    const maxBytes: nat
    const retained: nat
    var disk: Disk
    var file: nat
    var size: nat
    ghost var log: Log

    ghost predicate Valid()
      reads this
    {
      && retained >= 1 && Shows(disk, log, retained)
      && file == disk.names[Active] && size == |disk.inodes[file]|
    }

    /** A missing active file is created empty; an existing one is continued. */
    constructor Open(disk: Disk, maxBytes: nat, retained: nat, ghost found: Log)
      requires retained >= 1 && Shows(OpenAppend(disk), found, retained)
      ensures Valid() && log == found
      ensures this.maxBytes == maxBytes && this.retained == retained && this.disk == OpenAppend(disk)
    {
      this.maxBytes, this.retained := maxBytes, retained;
      var found' := OpenAppend(disk);
      this.disk, file := found', found'.names[Active];
      size := |found'.inodes[found'.names[Active]]|;
      log := found;
    }

    /** One line with its LF goes to the active file, after a rotation when it
        would overflow one that is not empty. */
    method AppendLine(line: string)
      requires Valid()
      modifies this
      ensures Valid()
      ensures log == AfterAppend(old(log), line + LF, maxBytes, retained)
      ensures size == |Flat(log.active)|
    {
      var needed := |line| + 1;
      if size > 0 && size + needed > maxBytes {
        RotateFiles();
      }
      disk := Append(disk, file, line);
      disk := Append(disk, file, LF);
      size := size + needed;
      FlatOfOneMore(log.active, line + LF);
      log := log.(active := log.active + [line + LF]);
    }

    /** Each name moves one up, the last one is dropped, and a new active file begins. */
    method RotateFiles()
      requires Valid()
      modifies this
      ensures Valid() && size == 0
      ensures log == Rotate(old(log), retained)
      ensures disk.names[Rotated(1)] == old(file)
      ensures |disk.inodes| == |old(disk).inodes| + 1 && old(disk).inodes <= disk.inodes
    {
      var n := retained - 1;
      disk := Remove(disk, Rotated(retained));
      while n >= 1
        invariant log == old(log) && file == old(file)
        invariant 0 <= n < retained && disk.inodes == old(disk).inodes && Sound(disk)
        invariant MovedDownTo(old(disk).names, disk.names, n, retained)
      {
        RenameMovesDown(old(disk).names, disk, n, retained);
        if Rotated(n) in disk.names {
          disk := Rename(disk, Rotated(n), Rotated(n + 1));
        }
        n := n - 1;
      }
      RotationShows(old(disk), disk, log, retained);
      disk := Rename(disk, Active, Rotated(1));
      disk := OpenAppend(disk);
      file, size := disk.names[Active], 0;
      log := Rotate(log, retained);
    }

    /** Counting stops at the first name that is missing. */
    method RetainedCount() returns (count: nat)
      requires Valid()
      ensures count == |log.rotated|
    {
      count := 0;
      while count < retained && Rotated(count + 1) in disk.names
        invariant count <= retained
        invariant forall n :: 1 <= n <= count ==> Rotated(n) in disk.names
      {
        count := count + 1;
      }
      assert count > 0 ==> Rotated(count) in disk.names;
      assert count < retained ==> Rotated(count + 1) !in disk.names;
    }
  }
}
