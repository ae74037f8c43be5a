/** What the reader's switches of files cost, whatever tells two files apart:
    lines shown again, lines lost, and lines held back. */
module FollowerSwitches {
  import opened Wrappers
  import opened LogFiles
  import opened Follower
  import opened FollowerProofs
  import FollowerTheorems

  // ---------------------------------------------------------------- watching a run

  predicate Reopens(cfg: Config, m: Machine, c: Choice) {
    c.Reopen? && Sound(m.disk) && Switches(cfg.unix, m.reader, m.disk)
  }

  /** The reopen goes to another file than the one the reader is on. */
  predicate Moves(cfg: Config, m: Machine, c: Choice) {
    Reopens(cfg, m, c) && (m.reader.file.Some? ==> m.reader.file.value.inode != m.disk.names[Active])
  }

  /** A whole line of the file has been read since the reader last began it. */
  predicate IntoFile(t: Trace) {
    BeginOf(t.lines, t.begins, t.at) < t.next
  }

  /** The reader's own file is started over after lines of it were shown. */
  predicate StartsOver(cfg: Config, m: Machine, c: Choice) {
    Reopens(cfg, m, c) && !Moves(cfg, m, c) && IntoFile(m.trace)
  }

  /** The read completes a line. */
  predicate Delivers(m: Machine, c: Choice) {
    c.Read? && CanRead(m, c.k) &&
    var h := m.reader.file.value;
    EndsInLf(m.disk.inodes[h.inode][h.pos..h.pos + c.k])
  }

  /** Of the file the reader is on: whether it was started over after lines of
      it were shown, the reader where it was furthest, and the line after the
      last one it completed there. */
  datatype Watch = Watch(over: bool, far: Reader, mark: nat)

  function WatchStep(cfg: Config, m: Machine, w: Watch, c: Choice): Watch {
    var later := Step(cfg, m, c);
    if Moves(cfg, m, c) then Watch(false, later.reader, later.trace.next)
    else if StartsOver(cfg, m, c) then w.(over := true)
    else if c.Read? && Position(later.reader) > Position(w.far) then w.(far := later.reader, mark := later.trace.next)
    else w
  }

  function Watched(cfg: Config, m: Machine, choices: seq<Choice>): Watch {
    if choices == [] then Watch(false, m.reader, m.trace.next)
    else
      var front := choices[..|choices| - 1];
      WatchStep(cfg, Run(cfg, m, front), Watched(cfg, m, front), choices[|choices| - 1])
  }

  /** Where files are told apart by inode the reader's own is never started
      over; where by length, exactly when its length is not what it was when
      it was opened. */
  lemma StartsOverIff(cfg: Config, m: Machine)
    requires Inv(cfg, m) && Active in m.disk.names && m.reader.file.Some?
    requires m.reader.file.value.inode == m.disk.names[Active]
    ensures StartsOver(cfg, m, Reopen) <==>
            !cfg.unix && IntoFile(m.trace) && m.reader.identity != Some(Length(|m.disk.inodes[m.disk.names[Active]]|))
  {
  }

  // ---------------------------------------------------------------- what watching sees

  /** Shown of the reader's file: its lines up to `mark`, all of them, and the
      reader was never further than `far`. */
  ghost predicate Furthest(cfg: Config, m: Machine, w: Watch) {
    var t := m.trace;
    && ReaderSound(m.disk.inodes, Absent(m.disk, m.writer), t.lines, t.begins, w.far, t.at, w.mark)
    && (w.far.file.Some? <==> m.reader.file.Some?)
    && Position(m.reader) <= Position(w.far) && t.next <= w.mark
  }

  ghost predicate ShownUpTo(t: Trace, mark: nat) {
    && t.first <= BeginOf(t.lines, t.begins, t.at) <= mark
    && forall p: nat :: BeginOf(t.lines, t.begins, t.at) <= p ==> (p in t.taken <==> p < mark)
  }

  ghost predicate Ascends(taken: seq<nat>) {
    forall j, k :: 0 <= j < k < |taken| ==> taken[j] < taken[k]
  }

  predicate AllBelow(taken: seq<nat>, next: nat) {
    forall k :: 0 <= k < |taken| ==> taken[k] < next
  }

  /** Before its file is started over the reader is past all it has shown; after
      that, as long as the places ascend, it has shown nothing more. */
  ghost predicate OrderKept(t: Trace, over: bool) {
    && (!over ==> AllBelow(t.taken, t.next))
    && (over && Ascends(t.taken) ==> !IntoFile(t) && !AllBelow(t.taken, t.next))
    && (IntoFile(t) ==> t.taken != [] && t.taken[|t.taken| - 1] == t.next - 1)
  }

  ghost predicate Seen(cfg: Config, m: Machine, w: Watch) {
    Inv(cfg, m) && Furthest(cfg, m, w) && ShownUpTo(m.trace, w.mark) && OrderKept(m.trace, w.over)
  }

  lemma InitiallySeen(cfg: Config, m: Machine)
    requires Initial(cfg, m)
    ensures Seen(cfg, m, Watch(false, m.reader, m.trace.next))
  {
    InitialHolds(cfg, m);
  }

  // ---------------------------------------------------------------- the writer meanwhile

  lemma WriterStepSeen(cfg: Config, m: Machine, w: Watch, c: Choice)
    requires Seen(cfg, m, w) && !c.Read? && !c.Reopen?
    ensures Seen(cfg, Step(cfg, m, c), w)
  {
    var t, later := m.trace, Step(cfg, m, c);
    WriterStepKeeps(cfg, m, c);
    WriterStepGrows(cfg, m, c);
    if Absent(m.disk, m.writer) {
      WriterStepEndsAbsence(cfg, m, c);
    }
    GrownKeepsReader(m.disk.inodes, Absent(m.disk, m.writer), t.lines, t.begins,
                     later.disk.inodes, Absent(later.disk, later.writer), later.trace.lines, later.trace.begins,
                     w.far, t.at, w.mark);
    BeginStays(m, later);
    TraceGrows(t, later.trace, w);
  }

  /** Where the reader's file begins among the lines does not change. */
  lemma BeginStays(m: Machine, later: Machine)
    requires Grown(m.disk.inodes, m.trace.lines, m.trace.begins, later.disk.inodes, later.trace.lines, later.trace.begins)
    requires later.trace == m.trace.(lines := later.trace.lines, begins := later.trace.begins)
    requires m.trace.at < |m.trace.begins| || (m.trace.at == |m.trace.begins| && later.trace.lines == m.trace.lines)
    ensures BeginOf(later.trace.lines, later.trace.begins, m.trace.at) == BeginOf(m.trace.lines, m.trace.begins, m.trace.at)
  {
  }

  lemma TraceGrows(t: Trace, later: Trace, w: Watch)
    requires later == t.(lines := later.lines, begins := later.begins)
    requires BeginOf(later.lines, later.begins, t.at) == BeginOf(t.lines, t.begins, t.at)
    requires ShownUpTo(t, w.mark) && OrderKept(t, w.over)
    ensures ShownUpTo(later, w.mark) && OrderKept(later, w.over)
  {
    hide BeginOf;
  }

  // ---------------------------------------------------------------- the reader's steps

  /** More of a text holds no fewer whole lines. */
  lemma MoreTextMoreLines(content: string, lines: seq<string>, begin: nat, n: nat, part: string, pos: nat,
                          n': nat, part': string, pos': nat)
    requires begin <= n <= |lines| && begin <= n' <= |lines| && pos <= pos' <= |content| && NoLf(part')
    requires content[..pos] == Text(lines[begin..n]) + part && content[..pos'] == Text(lines[begin..n']) + part'
    ensures n <= n'
  {
    if n' < n {
      var more := Text(lines[n'..n]);
      assert lines[begin..n] == lines[begin..n'] + lines[n'..n];
      TextAppends(lines[begin..n'], lines[n'..n]);
      NoLinesNoLf(lines[n'..n]);
      var i :| 0 <= i < |more| && more[i] == '\n';
      TextBeyond(content, Text(lines[begin..n']), more, part, pos, part', pos', i);
    }
  }

  lemma TextBeyond(content: string, whole: string, more: string, part: string, pos: nat, part': string, pos': nat, i: nat)
    requires pos <= pos' <= |content| && i < |more|
    requires content[..pos] == whole + more + part && content[..pos'] == whole + part'
    ensures i < |part'| && part'[i] == more[i]
  {
    assert content[..pos][|whole| + i] == more[i];
    assert content[..pos'][|whole| + i] == part'[i];
  }

  /** Two readers of one file: the further one has completed no fewer lines. */
  lemma FurtherHasMore(m: Machine, r: Reader, n: nat, r': Reader, n': nat)
    requires r.file.Some? && r'.file.Some? && Position(r) <= Position(r')
    requires ReaderSound(m.disk.inodes, false, m.trace.lines, m.trace.begins, r, m.trace.at, n)
    requires ReaderSound(m.disk.inodes, false, m.trace.lines, m.trace.begins, r', m.trace.at, n')
    ensures n <= n'
  {
    var t := m.trace;
    hide Text, NoLf;
    MoreTextMoreLines(m.disk.inodes[t.at], t.lines, BeginOf(t.lines, t.begins, t.at),
                      n, r.partial, r.file.value.pos, n', r'.partial, r'.file.value.pos);
  }

  /** A line completed: the next one, whether it was shown before or not. */
  lemma PlaceTaken(t: Trace, w: Watch, mark: nat)
    requires ShownUpTo(t, w.mark) && OrderKept(t, w.over) && BeginOf(t.lines, t.begins, t.at) <= t.next <= w.mark
    requires mark == w.mark || mark == t.next + 1
    requires t.next + 1 <= mark && w.mark <= mark
    ensures var later := t.(next := t.next + 1, taken := t.taken + [t.next]);
            ShownUpTo(later, mark) && OrderKept(later, w.over)
  {
    hide BeginOf;
    var later := t.(next := t.next + 1, taken := t.taken + [t.next]);
    var begin := BeginOf(t.lines, t.begins, t.at);
    forall p: nat | begin <= p
      ensures p in later.taken <==> p < mark
    {
      assert p in later.taken <==> p in t.taken || p == t.next;
    }
    if w.over {
      if Ascends(t.taken) {
        var k :| 0 <= k < |t.taken| && t.taken[k] >= t.next;
        assert later.taken[k] >= later.taken[|t.taken|];
      } else {
        var j, k :| 0 <= j < k < |t.taken| && t.taken[j] >= t.taken[k];
        assert later.taken[j] >= later.taken[k];
      }
    }
  }

  /** What a read does to where the reader is. */
  lemma ReadLands(cfg: Config, m: Machine, w: Watch, k: nat)
    requires Seen(cfg, m, w) && CanRead(m, k)
    ensures var (t, later) := (m.trace, ReadStep(m, k));
            && later.disk == m.disk && later.writer == m.writer
            && later.reader.file.Some? && w.far.file.Some?
            && ReaderSound(m.disk.inodes, false, t.lines, t.begins, later.reader, t.at, later.trace.next)
            && ReaderSound(m.disk.inodes, false, t.lines, t.begins, w.far, t.at, w.mark)
            && BeginOf(t.lines, t.begins, t.at) <= t.next <= w.mark
            && (later.trace == t || later.trace == t.(next := t.next + 1, taken := t.taken + [t.next]))
  {
    ReadKeepsReader(m, k);
    ReadMoves(m, k);
    hide ReadStep, Files, Identified, Delivered, Text, NoLf, IsChunk, EndsInLf, ShownUpTo, OrderKept;
  }

  lemma ReadFurther(cfg: Config, m: Machine, w: Watch, k: nat)
    requires Seen(cfg, m, w) && CanRead(m, k) && Position(ReadStep(m, k).reader) > Position(w.far)
    ensures Seen(cfg, ReadStep(m, k), Watch(w.over, ReadStep(m, k).reader, ReadStep(m, k).trace.next))
  {
    hide Inv, ReaderSound, CanRead, ReadStep, ShownUpTo, OrderKept, BeginOf;
    ReadKeeps(cfg, m, k);
    ReadLands(cfg, m, w, k);
    var t, later := m.trace, ReadStep(m, k);
    FurtherHasMore(m, w.far, w.mark, later.reader, later.trace.next);
    AbsenceIsNothing(m, later.reader, later.trace.next);
    if later.trace != t {
      PlaceTaken(t, w, later.trace.next);
    }
  }

  lemma ReadNoFurther(cfg: Config, m: Machine, w: Watch, k: nat)
    requires Seen(cfg, m, w) && CanRead(m, k) && Position(ReadStep(m, k).reader) <= Position(w.far)
    ensures Seen(cfg, ReadStep(m, k), w)
  {
    hide Inv, ReaderSound, CanRead, ReadStep, ShownUpTo, OrderKept, BeginOf;
    ReadKeeps(cfg, m, k);
    ReadLands(cfg, m, w, k);
    var t, later := m.trace, ReadStep(m, k);
    FurtherHasMore(m, later.reader, later.trace.next, w.far, w.mark);
    AbsenceIsNothing(m, w.far, w.mark);
    if later.trace != t {
      PlaceTaken(t, w, w.mark);
    }
  }

  lemma ReadStepSeen(cfg: Config, m: Machine, w: Watch, k: nat)
    requires Seen(cfg, m, w)
    ensures Seen(cfg, Step(cfg, m, Read(k)), WatchStep(cfg, m, w, Read(k)))
  {
    hide Seen, CanRead, ReadStep;
    if !CanRead(m, k) {
      NothingRead(cfg, m, w, k);
    } else if Position(ReadStep(m, k).reader) > Position(w.far) {
      ReadFurther(cfg, m, w, k);
    } else {
      ReadNoFurther(cfg, m, w, k);
    }
  }

  lemma NothingRead(cfg: Config, m: Machine, w: Watch, k: nat)
    requires Seen(cfg, m, w) && !CanRead(m, k)
    ensures Step(cfg, m, Read(k)) == m && WatchStep(cfg, m, w, Read(k)) == w
  {
    hide CanRead, Inv, ReaderSound, ShownUpTo, OrderKept;
  }

  /** A reader on a file is sound whether or not a file is awaited. */
  lemma AbsenceIsNothing(m: Machine, r: Reader, next: nat)
    requires r.file.Some? && ReaderSound(m.disk.inodes, false, m.trace.lines, m.trace.begins, r, m.trace.at, next)
    ensures ReaderSound(m.disk.inodes, Absent(m.disk, m.writer), m.trace.lines, m.trace.begins, r, m.trace.at, next)
  {
    hide Text, NoLf;
  }

  /** The file the name stands for begins no earlier than what was shown. */
  lemma MovesForward(cfg: Config, m: Machine, w: Watch)
    requires Seen(cfg, m, w) && Moves(cfg, m, Reopen)
    ensures var (t, inode) := (m.trace, m.disk.names[Active]);
            && t.at <= inode < |t.begins| && w.mark <= BeginOf(t.lines, t.begins, inode)
            && BeginOf(t.lines, t.begins, t.at) <= BeginOf(t.lines, t.begins, inode)
            && (m.reader.file.None? ==> w.mark == BeginOf(t.lines, t.begins, t.at))
  {
    hide Identified, Delivered, Text, NoLf, Holds;
  }

  lemma MoveSeen(cfg: Config, m: Machine, w: Watch)
    requires Seen(cfg, m, w) && Moves(cfg, m, Reopen)
    ensures Seen(cfg, Step(cfg, m, Reopen), WatchStep(cfg, m, w, Reopen))
  {
    ReopenKeeps(cfg, m);
    MovesForward(cfg, m, w);
    var t, inode, later := m.trace, m.disk.names[Active], Step(cfg, m, Reopen);
    assert later.disk == m.disk && later.writer == m.writer && later.trace == t.(at := inode, next := BeginOf(t.lines, t.begins, inode));
    hide Files, Identified, Delivered, ReaderSound, Sound, Switches;
    forall k | 0 <= k < |t.taken|
      ensures t.taken[k] < later.trace.next
    {
      assert t.taken[k] in t.taken;
    }
  }

  lemma StartOverSeen(cfg: Config, m: Machine, w: Watch)
    requires Seen(cfg, m, w) && Reopens(cfg, m, Reopen) && !Moves(cfg, m, Reopen)
    ensures Seen(cfg, Step(cfg, m, Reopen), WatchStep(cfg, m, w, Reopen))
  {
    ReopenKeeps(cfg, m);
    var t, later := m.trace, Step(cfg, m, Reopen);
    assert t.at == m.disk.names[Active] && m.reader.file.Some?;
    assert later.disk == m.disk && later.writer == m.writer && later.trace == t.(next := BeginOf(t.lines, t.begins, t.at));
    assert Position(later.reader) == 0 && later.reader.file.Some?;
    hide Files, Identified, Delivered, Sound, Switches, Text;
  }

  lemma StepSeen(cfg: Config, m: Machine, w: Watch, c: Choice)
    requires Seen(cfg, m, w)
    ensures Seen(cfg, Step(cfg, m, c), WatchStep(cfg, m, w, c))
  {
    hide Seen;
    match c
    case Read(k) => ReadStepSeen(cfg, m, w, k);
    case Reopen =>
      if Moves(cfg, m, c) {
        MoveSeen(cfg, m, w);
      } else if Reopens(cfg, m, c) {
        StartOverSeen(cfg, m, w);
      }
    case _ => WriterStepSeen(cfg, m, w, c);
  }

  lemma {:induction false} RunSeen(cfg: Config, m: Machine, choices: seq<Choice>)
    requires Initial(cfg, m)
    ensures Seen(cfg, Run(cfg, m, choices), Watched(cfg, m, choices))
  {
    hide Seen, Initial, Step, WatchStep;
    if choices == [] {
      InitiallySeen(cfg, m);
    } else {
      var front := choices[..|choices| - 1];
      RunSeen(cfg, m, front);
      StepSeen(cfg, Run(cfg, m, front), Watched(cfg, m, front), choices[|choices| - 1]);
    }
  }

  // ---------------------------------------------------------------- lines shown again

  /** The machine before step `i`. */
  function Before(cfg: Config, m: Machine, choices: seq<Choice>, i: nat): Machine
    requires i <= |choices|
  {
    Run(cfg, m, choices[..i])
  }

  /** Step `i` starts the reader's file over, and no step since has moved it to another. */
  ghost predicate OverSince(cfg: Config, m: Machine, choices: seq<Choice>, i: nat) {
    && i < |choices| && StartsOver(cfg, Before(cfg, m, choices, i), choices[i])
    && forall x :: i < x < |choices| ==> !Moves(cfg, Before(cfg, m, choices, x), choices[x])
  }

  lemma BeforeInFront(cfg: Config, m: Machine, choices: seq<Choice>, n: nat)
    requires n <= |choices|
    ensures forall i :: 0 <= i <= n ==> Before(cfg, m, choices[..n], i) == Before(cfg, m, choices, i)
    ensures Before(cfg, m, choices, n) == Run(cfg, m, choices[..n])
  {
    forall i | 0 <= i <= n
      ensures choices[..n][..i] == choices[..i]
    {
    }
  }

  lemma {:induction false} OverIff(cfg: Config, m: Machine, choices: seq<Choice>)
    ensures Watched(cfg, m, choices).over <==> exists i: nat :: OverSince(cfg, m, choices, i)
  {
    hide Moves, StartsOver, Run, Step;
    if choices != [] {
      var n := |choices| - 1;
      var front := choices[..n];
      BeforeInFront(cfg, m, choices, n);
      OverIff(cfg, m, front);
      WatchedOver(cfg, m, choices);
      if Watched(cfg, m, choices).over {
        if StartsOver(cfg, Run(cfg, m, front), choices[n]) {
          assert OverSince(cfg, m, choices, n);
        } else {
          var i: nat :| OverSince(cfg, m, front, i);
          assert OverSince(cfg, m, choices, i);
        }
      }
      forall i: nat | OverSince(cfg, m, choices, i)
        ensures Watched(cfg, m, choices).over
      {
        if i < n {
          assert !Moves(cfg, Before(cfg, m, choices, n), choices[n]);
          assert OverSince(cfg, m, front, i);
        } else {
          StartingOverIsNoMove(cfg, Run(cfg, m, front), choices[n]);
        }
      }
    }
  }

  lemma StartingOverIsNoMove(cfg: Config, m: Machine, c: Choice)
    ensures StartsOver(cfg, m, c) ==> !Moves(cfg, m, c)
  {
    hide Reopens;
  }

  lemma WatchedOver(cfg: Config, m: Machine, choices: seq<Choice>)
    requires choices != []
    ensures var (front, last) := (choices[..|choices| - 1], choices[|choices| - 1]);
            var before := Run(cfg, m, front);
            Watched(cfg, m, choices).over <==>
            !Moves(cfg, before, last) && (StartsOver(cfg, before, last) || Watched(cfg, m, front).over)
  {
    hide Moves, StartsOver, Run, Step;
  }

  /** A line is completed at step `j` in a file started over at step `i`, not left in between. */
  ghost predicate ShownAgain(cfg: Config, m: Machine, choices: seq<Choice>, i: nat, j: nat) {
    && j < |choices| && Delivers(Before(cfg, m, choices, j), choices[j])
    && OverSince(cfg, m, choices[..j], i)
  }

  ghost predicate NothingShownAgain(cfg: Config, m: Machine, choices: seq<Choice>) {
    forall i: nat, j: nat :: !ShownAgain(cfg, m, choices, i, j)
  }

  lemma ShownAgainInFront(cfg: Config, m: Machine, choices: seq<Choice>)
    requires choices != []
    ensures var (front, last) := (choices[..|choices| - 1], choices[|choices| - 1]);
            NothingShownAgain(cfg, m, choices) <==>
            && NothingShownAgain(cfg, m, front)
            && (Delivers(Run(cfg, m, front), last) ==> !exists i: nat :: OverSince(cfg, m, front, i))
  {
    hide OverSince, Delivers, Run;
    var n := |choices| - 1;
    var front := choices[..n];
    BeforeInFront(cfg, m, choices, n);
    forall j | 0 <= j < n
      ensures front[..j] == choices[..j]
    {
    }
    forall i: nat, j: nat
      ensures ShownAgain(cfg, m, front, i, j) <==> j < n && ShownAgain(cfg, m, choices, i, j)
    {
    }
    forall i: nat
      ensures ShownAgain(cfg, m, choices, i, n) <==> Delivers(Run(cfg, m, front), choices[n]) && OverSince(cfg, m, front, i)
    {
    }
    if NothingShownAgain(cfg, m, front) && !NothingShownAgain(cfg, m, choices) {
      var i: nat, j: nat :| ShownAgain(cfg, m, choices, i, j);
      assert j == n;
    }
    if NothingShownAgain(cfg, m, choices) {
      forall i: nat
        ensures Delivers(Run(cfg, m, front), choices[n]) ==> !OverSince(cfg, m, front, i)
      {
        assert !ShownAgain(cfg, m, choices, i, n);
      }
    }
  }

  /** Only a read that completes a line adds a place, and adds the next one. */
  lemma PlacesAdded(cfg: Config, m: Machine, c: Choice)
    ensures Step(cfg, m, c).trace.taken == if Delivers(m, c) then m.trace.taken + [m.trace.next] else m.trace.taken
  {
    match c
    case Read(k) =>
      if CanRead(m, k) {
        ReadMoves(m, k);
        ReadLogs(m, k);
      }
    case Reopen =>
    case _ => WriterStepGrows(cfg, m, c);
  }

  lemma ReadLogs(m: Machine, k: nat)
    requires CanRead(m, k)
    ensures ReadStep(m, k).trace.taken == if Delivers(m, Read(k)) then m.trace.taken + [m.trace.next] else m.trace.taken
  {
    hide IsChunk, EndsInLf;
  }

  lemma AscendsWith(taken: seq<nat>, next: nat)
    ensures Ascends(taken + [next]) <==> Ascends(taken) && AllBelow(taken, next)
  {
    var later := taken + [next];
    if Ascends(later) {
      forall j, k | 0 <= j < k < |taken|
        ensures taken[j] < taken[k]
      {
        assert later[j] < later[k];
      }
      forall k | 0 <= k < |taken|
        ensures taken[k] < next
      {
        assert later[k] < later[|taken|];
      }
    }
  }

  lemma {:induction false} PlacesAscendIff(cfg: Config, m: Machine, choices: seq<Choice>)
    requires Initial(cfg, m)
    ensures Ascends(Run(cfg, m, choices).trace.taken) <==> NothingShownAgain(cfg, m, choices)
  {
    if choices == [] {
      assert forall i: nat, j: nat :: !ShownAgain(cfg, m, choices, i, j);
    } else {
      hide *;
      var front, last := choices[..|choices| - 1], choices[|choices| - 1];
      var before, w := Run(cfg, m, front), Watched(cfg, m, front);
      PlacesAscendIff(cfg, m, front);
      ShownAgainInFront(cfg, m, choices);
      OverIff(cfg, m, front);
      RunSeen(cfg, m, front);
      RunOfOneMore(cfg, m, choices);
      PlacesAdded(cfg, before, last);
      SeenInOrder(cfg, before, w);
      AscendsWith(before.trace.taken, before.trace.next);
    }
  }

  lemma RunOfOneMore(cfg: Config, m: Machine, choices: seq<Choice>)
    requires choices != []
    ensures Run(cfg, m, choices) == Step(cfg, Run(cfg, m, choices[..|choices| - 1]), choices[|choices| - 1])
  {
    hide Step;
  }

  lemma SeenInOrder(cfg: Config, m: Machine, w: Watch)
    requires Seen(cfg, m, w)
    ensures Ascends(m.trace.taken) ==> (AllBelow(m.trace.taken, m.trace.next) <==> !w.over)
  {
    hide Inv, Furthest, ShownUpTo, Ascends, AllBelow;
  }

  /** Over every run, whatever tells files apart: what is shown is whole written
      lines, and their places ascend, none twice, if and only if no line is
      completed in a file that was started over after lines of it were shown. */
  lemma ShowsInOrderIff(cfg: Config, m: Machine, choices: seq<Choice>)
    requires Initial(cfg, m)
    ensures var later := Run(cfg, m, choices);
            && Delivered(later.out, later.trace.lines, later.trace.taken)
            && (Ascends(later.trace.taken) <==> NothingShownAgain(cfg, m, choices))
  {
    InitialHolds(cfg, m);
    RunKeeps(cfg, m, choices);
    PlacesAscendIff(cfg, m, choices);
  }

  // ---------------------------------------------------------------- lines lost

  /** Every line from the first to the next has been shown. */
  ghost predicate LostNothing(t: Trace) {
    forall p: nat :: t.first <= p < t.next ==> p in t.taken
  }

  /** The reader moves to the very next file, having been at the end of its own. */
  predicate LosslessMove(cfg: Config, m: Machine, w: Watch, c: Choice) {
    Moves(cfg, m, c) ==>
      match m.reader.file
      case None => m.disk.names[Active] == m.trace.at
      case Some(h) =>
        && m.disk.names[Active] == h.inode + 1
        && h.inode < |m.disk.inodes| && Position(w.far) == |m.disk.inodes[h.inode]|
  }

  /** What was lost before the reader's file. */
  ghost predicate LostNoneBefore(t: Trace) {
    forall p: nat :: t.first <= p < BeginOf(t.lines, t.begins, t.at) ==> p in t.taken
  }

  lemma LostBeforeOnly(cfg: Config, m: Machine, w: Watch)
    requires Seen(cfg, m, w)
    ensures LostNothing(m.trace) <==> LostNoneBefore(m.trace)
  {
    var t := m.trace;
    hide Inv, OrderKept;
    SeenWithin(cfg, m, w);
    hide Furthest, BeginOf;
  }

  lemma SeenWithin(cfg: Config, m: Machine, w: Watch)
    requires Seen(cfg, m, w)
    ensures BeginOf(m.trace.lines, m.trace.begins, m.trace.at) <= m.trace.next <= w.mark
  {
    hide OrderKept, ShownUpTo, Files, Identified, Delivered, Text, NoLf;
  }

  /** At the end of a file no longer written, exactly when all its lines were completed. */
  lemma AtTheEndIff(cfg: Config, m: Machine, w: Watch)
    requires Seen(cfg, m, w) && m.reader.file.Some? && m.trace.at + 1 < |m.disk.inodes|
    ensures w.far.file.Some? && w.far.file.value.inode == m.trace.at == m.reader.file.value.inode
    ensures w.mark == BeginOf(m.trace.lines, m.trace.begins, m.trace.at + 1) <==> Position(w.far) == |m.disk.inodes[m.trace.at]|
  {
    var t := m.trace;
    FarIsHere(cfg, m, w);
    hide *;
    FollowerTheorems.ReadToTheEnd(m.disk.inodes[t.at], t.lines, BeginOf(t.lines, t.begins, t.at), w.mark,
                                  BeginOf(t.lines, t.begins, t.at + 1), w.far.partial, w.far.file.value.pos);
    FarPosition(w.far);
  }

  lemma FarPosition(r: Reader)
    requires r.file.Some?
    ensures Position(r) == r.file.value.pos
  {
  }

  lemma FarIsHere(cfg: Config, m: Machine, w: Watch)
    requires Seen(cfg, m, w) && m.reader.file.Some? && m.trace.at + 1 < |m.disk.inodes|
    ensures var (t, r) := (m.trace, w.far);
            && r.file.Some? && r.file.value.inode == t.at == m.reader.file.value.inode
            && r.file.value.pos <= |m.disk.inodes[t.at]|
            && BeginOf(t.lines, t.begins, t.at) <= w.mark <= BeginOf(t.lines, t.begins, t.at + 1) <= |t.lines|
            && m.disk.inodes[t.at] == Text(t.lines[BeginOf(t.lines, t.begins, t.at)..BeginOf(t.lines, t.begins, t.at + 1)])
            && m.disk.inodes[t.at][..r.file.value.pos] == Text(t.lines[BeginOf(t.lines, t.begins, t.at)..w.mark]) + r.partial
            && NoLf(r.partial)
  {
    var t := m.trace;
    hide OrderKept, ShownUpTo, Identified, Delivered, Text, NoLf;
    assert Holds(m.disk.inodes[t.at], m.writer, t.lines, t.begins, t.at);
    assert Tail(m.writer, t.at) == "";
  }

  /** A move skips no line exactly when it is lossless. */
  lemma MoveLosesNothingIff(cfg: Config, m: Machine, w: Watch)
    requires Seen(cfg, m, w) && Moves(cfg, m, Reopen)
    ensures w.mark == BeginOf(m.trace.lines, m.trace.begins, m.disk.names[Active]) <==> LosslessMove(cfg, m, w, Reopen)
  {
    var t, inode := m.trace, m.disk.names[Active];
    MovesForward(cfg, m, w);
    BeginsAscend(cfg, m);
    if m.reader.file.Some? {
      ActiveIsLast(cfg, m, w);
      AtTheEndIff(cfg, m, w);
      FarIsHere(cfg, m, w);
      hide Seen, BeginOf;
    } else {
      hide Seen, BeginOf;
    }
  }

  lemma ActiveIsLast(cfg: Config, m: Machine, w: Watch)
    requires Seen(cfg, m, w) && Moves(cfg, m, Reopen) && m.reader.file.Some?
    ensures m.trace.at == m.reader.file.value.inode && m.trace.at < m.disk.names[Active] == |m.disk.inodes| - 1
  {
    hide OrderKept, ShownUpTo, Identified, Delivered, Text, NoLf, Holds;
  }

  lemma BeginsAscend(cfg: Config, m: Machine)
    requires Inv(cfg, m)
    ensures forall i, j :: 0 <= i < j < |m.trace.begins| ==>
              BeginOf(m.trace.lines, m.trace.begins, i) < BeginOf(m.trace.lines, m.trace.begins, j)
  {
    hide Identified, Delivered, Text, NoLf, Holds;
  }

  /** One step loses nothing exactly when it is no lossy move, and what is lost stays lost. */
  lemma StepLosesNothingIff(cfg: Config, m: Machine, w: Watch, c: Choice)
    requires Seen(cfg, m, w)
    ensures LostNoneBefore(Step(cfg, m, c).trace) <==> LostNoneBefore(m.trace) && LosslessMove(cfg, m, w, c)
  {
    PlacesAdded(cfg, m, c);
    SeenWithin(cfg, m, w);
    if Moves(cfg, m, c) {
      MovesForward(cfg, m, w);
      MoveLosesNothingIff(cfg, m, w);
      MoveLoses(cfg, m, w);
    } else {
      StaysInFile(cfg, m, w, c);
      hide Seen, Moves, Step, BeginOf, Delivers, LosslessMove;
      var t, later := m.trace, Step(cfg, m, c).trace;
      forall p: nat | p < BeginOf(t.lines, t.begins, t.at)
        ensures p in later.taken <==> p in t.taken
      {
      }
      NoMoveIsLossless(cfg, m, w, c);
    }
  }

  lemma NoMoveIsLossless(cfg: Config, m: Machine, w: Watch, c: Choice)
    requires !Moves(cfg, m, c)
    ensures LosslessMove(cfg, m, w, c)
  {
    hide Moves;
  }

  lemma StaysInFile(cfg: Config, m: Machine, w: Watch, c: Choice)
    requires Seen(cfg, m, w) && !Moves(cfg, m, c)
    ensures var (t, later) := (m.trace, Step(cfg, m, c).trace);
            && later.first == t.first && later.at == t.at
            && BeginOf(later.lines, later.begins, later.at) == BeginOf(t.lines, t.begins, t.at)
  {
    hide OrderKept, ShownUpTo, Identified, Delivered, Text, NoLf, Holds;
    match c
    case Read(k) => if CanRead(m, k) { ReadLands(cfg, m, w, k); }
    case Reopen =>
    case _ =>
      WriterStepGrows(cfg, m, c);
      if Absent(m.disk, m.writer) {
        WriterStepEndsAbsence(cfg, m, c);
      }
      BeginStays(m, Step(cfg, m, c));
  }

  lemma MoveLoses(cfg: Config, m: Machine, w: Watch)
    requires Seen(cfg, m, w) && Moves(cfg, m, Reopen)
    requires w.mark <= BeginOf(m.trace.lines, m.trace.begins, m.disk.names[Active])
    ensures LostNoneBefore(Step(cfg, m, Reopen).trace) <==>
            LostNoneBefore(m.trace) && w.mark == BeginOf(m.trace.lines, m.trace.begins, m.disk.names[Active])
  {
    var t, inode := m.trace, m.disk.names[Active];
    var begin, end := BeginOf(t.lines, t.begins, t.at), BeginOf(t.lines, t.begins, inode);
    assert Step(cfg, m, Reopen).trace == t.(at := inode, next := end);
    assert ShownUpTo(t, w.mark);
    hide Seen, Moves, Step, BeginOf;
    if w.mark < end {
      assert w.mark !in t.taken;
    }
  }

  ghost predicate EveryMoveLossless(cfg: Config, m: Machine, choices: seq<Choice>) {
    forall i :: 0 <= i < |choices| ==>
      LosslessMove(cfg, Run(cfg, m, choices[..i]), Watched(cfg, m, choices[..i]), choices[i])
  }

  lemma LosslessInFront(cfg: Config, m: Machine, choices: seq<Choice>)
    requires choices != []
    ensures var (front, last) := (choices[..|choices| - 1], choices[|choices| - 1]);
            EveryMoveLossless(cfg, m, choices) <==>
            EveryMoveLossless(cfg, m, front) && LosslessMove(cfg, Run(cfg, m, front), Watched(cfg, m, front), last)
  {
    hide LosslessMove, Run, Watched;
    var n := |choices| - 1;
    var front := choices[..n];
    forall i | 0 <= i <= n
      ensures i < n ==> front[..i] == choices[..i] && front[i] == choices[i]
    {
    }
    if EveryMoveLossless(cfg, m, choices) {
      forall i | 0 <= i < n
        ensures LosslessMove(cfg, Run(cfg, m, front[..i]), Watched(cfg, m, front[..i]), front[i])
      {
        assert LosslessMove(cfg, Run(cfg, m, choices[..i]), Watched(cfg, m, choices[..i]), choices[i]);
      }
    }
  }

  lemma {:induction false} LostNoneBeforeIff(cfg: Config, m: Machine, choices: seq<Choice>)
    requires Initial(cfg, m)
    ensures LostNoneBefore(Run(cfg, m, choices).trace) <==> EveryMoveLossless(cfg, m, choices)
  {
    if choices != [] {
      hide *;
      var front, last := choices[..|choices| - 1], choices[|choices| - 1];
      LostNoneBeforeIff(cfg, m, front);
      RunSeen(cfg, m, front);
      RunOfOneMore(cfg, m, choices);
      StepLosesNothingIff(cfg, Run(cfg, m, front), Watched(cfg, m, front), last);
      LosslessInFront(cfg, m, choices);
    }
  }

  /** Over every run, whatever tells files apart: no line is lost if and only if
      each move went to the very next file, from one the reader had been at the
      end of. A switch that is missed loses nothing by itself, and makes the
      next move skip a file. */
  lemma LosesNothingIff(cfg: Config, m: Machine, choices: seq<Choice>)
    requires Initial(cfg, m)
    ensures LostNothing(Run(cfg, m, choices).trace) <==> EveryMoveLossless(cfg, m, choices)
  {
    RunSeen(cfg, m, choices);
    LostBeforeOnly(cfg, Run(cfg, m, choices), Watched(cfg, m, choices));
    LostNoneBeforeIff(cfg, m, choices);
  }

  // ---------------------------------------------------------------- lines held back

  /** At the end of a file that was rotated away, where files are told apart by
      length: the switch to the new one is missed exactly while that is as long
      as the old one is and was when it was opened. */
  lemma SwitchMissedIff(cfg: Config, m: Machine)
    requires Inv(cfg, m) && !cfg.unix && Active in m.disk.names && m.reader.file.Some?
    requires m.reader.file.value.inode != m.disk.names[Active]
    requires Position(m.reader) == |m.disk.inodes[m.reader.file.value.inode]|
    ensures !Switches(cfg.unix, m.reader, m.disk) <==>
            && |m.disk.inodes[m.disk.names[Active]]| == |m.disk.inodes[m.reader.file.value.inode]|
            && m.reader.identity == Some(Length(|m.disk.inodes[m.reader.file.value.inode]|))
  {
  }

  ghost predicate NoSwitch(cfg: Config, m: Machine, choices: seq<Choice>) {
    forall i :: 0 <= i < |choices| ==> !Reopens(cfg, Run(cfg, m, choices[..i]), choices[i])
  }

  /** The reader has read all of a file that was rotated away. */
  ghost predicate DoneWithOld(cfg: Config, m: Machine) {
    && Inv(cfg, m) && m.reader.file.Some? && m.trace.at + 1 < |m.disk.inodes|
    && Position(m.reader) == |m.disk.inodes[m.trace.at]|
  }

  lemma StepHoldsBack(cfg: Config, m: Machine, c: Choice)
    requires DoneWithOld(cfg, m) && !Reopens(cfg, m, c)
    ensures var later := Step(cfg, m, c);
            DoneWithOld(cfg, later) && later.reader == m.reader && later.out == m.out
  {
    StepKeeps(cfg, m, c);
    if !c.Read? && !c.Reopen? {
      WriterStepGrows(cfg, m, c);
      OldFileStays(cfg, m, c);
    }
  }

  /** The writer is on the last file. */
  lemma OldFileStays(cfg: Config, m: Machine, c: Choice)
    requires Inv(cfg, m) && m.trace.at + 1 < |m.disk.inodes| && !c.Read? && !c.Reopen?
    ensures Step(cfg, m, c).disk.inodes[m.trace.at] == m.disk.inodes[m.trace.at]
    ensures |m.disk.inodes| <= |Step(cfg, m, c).disk.inodes|
  {
    hide ReaderSound, Identified, Delivered, InOrder, Text, NoLf, Holds;
  }

  /** As long as no reopen switches, nothing written to the newer files is shown. */
  lemma {:induction false} MissedSwitchHoldsBack(cfg: Config, m: Machine, choices: seq<Choice>)
    requires DoneWithOld(cfg, m) && NoSwitch(cfg, m, choices)
    ensures var later := Run(cfg, m, choices);
            DoneWithOld(cfg, later) && later.reader == m.reader && later.out == m.out
  {
    if choices != [] {
      var n := |choices| - 1;
      var front := choices[..n];
      forall i | 0 <= i < n
        ensures !Reopens(cfg, Run(cfg, m, front[..i]), front[i])
      {
        assert front[..i] == choices[..i];
      }
      assert !Reopens(cfg, Run(cfg, m, choices[..n]), choices[n]);
      hide DoneWithOld, Reopens, Step;
      MissedSwitchHoldsBack(cfg, m, front);
      StepHoldsBack(cfg, Run(cfg, m, front), choices[n]);
      RunOfOneMore(cfg, m, choices);
    }
  }

  // ---------------------------------------------------------------- two runs

  const SMALL := Config(true, 2, 1)

  const SMALL_BY_LENGTH := Config(false, 2, 1)

  /** One line written to a file the reader has just found, empty. */
  lemma OneLine(unix: bool) returns (choices: seq<Choice>)
    ensures Run(Config(unix, 2, 1), FollowerTheorems.NOTHING_YET, choices) ==
            Machine(Disk(map[Active := 0], ["a\n"]), Writer(Idle, 0, 2),
                    Reader(Some(Handle(0, 0)), Some(if unix then Inode(0) else Length(0)), ""), [],
                    Trace(["a"], [0], 0, 0, 0, []))
  {
    var cfg, start := Config(unix, 2, 1), FollowerTheorems.NOTHING_YET;
    EmptyLog(unix);
    var found := Machine(Disk(map[Active := 0], [""]), Writer(Idle, 0, 0),
                         Reader(Some(Handle(0, 0)), Some(if unix then Inode(0) else Length(0)), ""), [],
                         Trace([], [0], 0, 0, 0, []));
    FirstLineWritten(unix, found);
    assert Run(cfg, start, []) == start;
    hide *;
    choices := FollowerTheorems.Then(cfg, start, [], OpenLog);
    choices := FollowerTheorems.Then(cfg, start, choices, Reopen);
    choices := FollowerTheorems.Then(cfg, start, choices, Begin("a"));
    choices := FollowerTheorems.Then(cfg, start, choices, Write(2));
  }

  lemma EmptyLog(unix: bool)
    ensures Step(Config(unix, 2, 1), Step(Config(unix, 2, 1), FollowerTheorems.NOTHING_YET, OpenLog), Reopen) ==
            Machine(Disk(map[Active := 0], [""]), Writer(Idle, 0, 0),
                    Reader(Some(Handle(0, 0)), Some(if unix then Inode(0) else Length(0)), ""), [],
                    Trace([], [0], 0, 0, 0, []))
  {
    var m := Step(Config(unix, 2, 1), FollowerTheorems.NOTHING_YET, OpenLog);
    assert m == Machine(Disk(map[Active := 0], [""]), Writer(Idle, 0, 0), Reader(None, None, ""), [], Trace([], [0], 0, 0, 0, []));
  }

  lemma FirstLineWritten(unix: bool, m: Machine)
    requires m.disk == Disk(map[Active := 0], [""]) && m.writer == Writer(Idle, 0, 0)
    requires m.trace.lines == []
    ensures var cfg := Config(unix, 2, 1);
            Step(cfg, Step(cfg, m, Begin("a")), Write(2)) ==
            m.(disk := Disk(map[Active := 0], ["a\n"]), writer := Writer(Idle, 0, 2), trace := m.trace.(lines := ["a"]))
  {
    assert Step(Config(unix, 2, 1), m, Begin("a")) == m.(writer := Writer(Writing("a", 0), 0, 0));
    assert "" + ("a" + LF)[0..2] == "a\n";
  }

  /** A second line, which takes a rotation: the reader is where it was. */
  lemma SecondLine(cfg: Config, m: Machine, choices: seq<Choice>) returns (more: seq<Choice>)
    requires cfg.maxBytes == 2 && cfg.retained == 1
    requires var now := Run(cfg, m, choices);
             && now.disk == Disk(map[Active := 0], ["a\n"]) && now.writer == Writer(Idle, 0, 2)
             && now.trace.lines == ["a"] && now.trace.begins == [0]
    ensures var (now, later) := (Run(cfg, m, choices), Run(cfg, m, more));
            && later.disk == Disk(map[Active := 1, Rotated(1) := 0], ["a\n", "b\n"])
            && later.reader == now.reader && later.out == now.out
            && later.trace == now.trace.(lines := ["a", "b"], begins := [0, 1])
  {
    var now := Run(cfg, m, choices);
    more := FollowerTheorems.Then(cfg, m, choices, Begin("b"));
    assert Run(cfg, m, more) == now.(writer := Writer(Clearing("b"), 0, 2));
    more := FollowerTheorems.Then(cfg, m, more, Advance);
    assert Remove(now.disk, Rotated(1)).names == map[Active := 0];
    assert Run(cfg, m, more) == now.(writer := Writer(Shifting(0, "b"), 0, 2));
    more := FollowerTheorems.Then(cfg, m, more, Advance);
    assert Rename(now.disk, Active, Rotated(1)).names == map[Rotated(1) := 0];
    assert Run(cfg, m, more) == now.(disk := Disk(map[Rotated(1) := 0], ["a\n"]), writer := Writer(Creating("b"), 0, 2));
    more := FollowerTheorems.Then(cfg, m, more, Advance);
    var created := Run(cfg, m, more);
    assert created.disk == Disk(map[Active := 1, Rotated(1) := 0], ["a\n", ""]) && created.writer == Writer(Writing("b", 0), 1, 0);
    assert created.trace == now.trace.(begins := [0, 1]);
    more := FollowerTheorems.Then(cfg, m, more, Write(2));
    assert "" + ("b" + LF)[0..2] == "b\n";
    assert ["a\n", ""][1 := "b\n"] == ["a\n", "b\n"];
  }

  /** A line written between the last drain and the rotation is lost, by inode too. */
  lemma UnixLosesALine() returns (choices: seq<Choice>)
    ensures Initial(SMALL, FollowerTheorems.NOTHING_YET)
    ensures var m := Run(SMALL, FollowerTheorems.NOTHING_YET, choices);
            && m.trace.lines == ["a", "b"] && m.out == [] && m.trace.next == 1
            && !LostNothing(m.trace) && !FollowerTheorems.Lossless(m.trace)
  {
    choices := OneLine(true);
    choices := SecondLine(SMALL, FollowerTheorems.NOTHING_YET, choices);
    choices := FollowerTheorems.Then(SMALL, FollowerTheorems.NOTHING_YET, choices, Reopen);
    assert 0 !in Run(SMALL, FollowerTheorems.NOTHING_YET, choices).trace.taken;
  }

  /** The one line shown, by a reader that found the file anew at its length now. */
  lemma FirstLineShown(m: Machine)
    requires m == Machine(Disk(map[Active := 0], ["a\n"]), Writer(Idle, 0, 2), Reader(Some(Handle(0, 0)), Some(Length(0)), ""), [],
                          Trace(["a"], [0], 0, 0, 0, []))
    ensures Step(SMALL_BY_LENGTH, Step(SMALL_BY_LENGTH, m, Reopen), Read(2)) ==
            m.(reader := Reader(Some(Handle(0, 2)), Some(Length(2)), ""), out := ["a\n"],
               trace := Trace(["a"], [0], 0, 0, 1, [0]))
  {
    var found := Step(SMALL_BY_LENGTH, m, Reopen);
    assert found == m.(reader := Reader(Some(Handle(0, 0)), Some(Length(2)), ""));
    assert "a\n"[0..2] == "a\n" && "" + "a\n" == "a\n";
  }

  /** The second file is as long as the first: by length they are one, and the
      reopen stays with the first. */
  lemma EqualLengthHidesALine() returns (choices: seq<Choice>)
    ensures Initial(SMALL_BY_LENGTH, FollowerTheorems.NOTHING_YET)
    ensures var m := Run(SMALL_BY_LENGTH, FollowerTheorems.NOTHING_YET, choices);
            && m.trace.lines == ["a", "b"] && m.out == ["a\n"] && DoneWithOld(SMALL_BY_LENGTH, m)
            && Step(SMALL_BY_LENGTH, m, Reopen) == m
  {
    var cfg, start := SMALL_BY_LENGTH, FollowerTheorems.NOTHING_YET;
    choices := OneLine(false);
    FirstLineShown(Run(cfg, start, choices));
    NothingYetIsInitial(cfg);
    hide *;
    choices := FollowerTheorems.Then(cfg, start, choices, Reopen);
    choices := FollowerTheorems.Then(cfg, start, choices, Read(2));
    choices := SecondLine(cfg, start, choices);
    InitialHolds(cfg, start);
    RunKeeps(cfg, start, choices);
    StaysWithOld(Run(cfg, start, choices));
  }

  lemma NothingYetIsInitial(cfg: Config)
    ensures Initial(cfg, FollowerTheorems.NOTHING_YET)
  {
  }

  lemma StaysWithOld(m: Machine)
    requires Inv(SMALL_BY_LENGTH, m)
    requires m.disk == Disk(map[Active := 1, Rotated(1) := 0], ["a\n", "b\n"])
    requires m.reader == Reader(Some(Handle(0, 2)), Some(Length(2)), "") && m.trace.at == 0
    ensures DoneWithOld(SMALL_BY_LENGTH, m) && Step(SMALL_BY_LENGTH, m, Reopen) == m
  {
    hide Inv;
  }
}
