/** What a follower shows: whole lines, in order, once each; which lines a
    switch of files loses; and what file identity by length costs. */
module FollowerTheorems {
  import opened Wrappers
  import opened LogFiles
  import opened Follower
  import opened FollowerProofs

  /** The delivered lines are an in-order, duplicate-free selection of whole
      written lines, whatever the interleaving. */
  lemma DeliversWholeLinesInOrder(cfg: Config, m: Machine, choices: seq<Choice>)
    requires Initial(cfg, m) && cfg.unix
    ensures var later := Run(cfg, m, choices);
            exists places: seq<nat> ::
              && |places| == |later.out|
              && (forall k :: 0 <= k < |places| ==>
                    places[k] < |later.trace.lines| && later.out[k] == later.trace.lines[places[k]] + LF)
              && (forall j, k :: 0 <= j < k < |places| ==> places[j] < places[k])
  {
    InitialHolds(cfg, m);
    RunKeeps(cfg, m, choices);
    var t := Run(cfg, m, choices).trace;
    assert Delivered(Run(cfg, m, choices).out, t.lines, t.taken) && InOrder(t.taken, t.first, t.next);
  }

  /** Against this writer no file is ever found shorter than what was read of
      it: a reopen switches exactly when the name stands for another inode. */
  lemma ShrankNeverFires(cfg: Config, m: Machine)
    requires Inv(cfg, m) && cfg.unix && Active in m.disk.names
    ensures m.reader.file.Some? && m.reader.file.value.inode == m.disk.names[Active] ==>
              !Shrank(m.reader, m.disk, m.disk.names[Active])
    ensures Switches(true, m.reader, m.disk) <==>
            !(m.reader.file.Some? && m.reader.file.value.inode == m.disk.names[Active])
  {
  }

  // ---------------------------------------------------------------- what a switch loses

  /** The switch goes to the very next file, from the end of the one before. */
  predicate CleanSwitch(m: Machine)
    requires Active in m.disk.names
  {
    match m.reader.file
    case None => m.disk.names[Active] == m.trace.at
    case Some(h) =>
      && m.disk.names[Active] == h.inode + 1
      && h.inode < |m.disk.inodes| && h.pos == |m.disk.inodes[h.inode]|
  }

  predicate Clean(cfg: Config, m: Machine, c: Choice) {
    c.Reopen? && Sound(m.disk) && Switches(cfg.unix, m.reader, m.disk) ==> CleanSwitch(m)
  }

  lemma ReadToTheEnd(content: string, lines: seq<string>, begin: nat, next: nat, end: nat, partial: string, pos: nat)
    requires begin <= next <= end <= |lines| && content == Text(lines[begin..end]) && pos <= |content|
    requires content[..pos] == Text(lines[begin..next]) + partial && NoLf(partial)
    ensures next == end <==> pos == |content|
  {
    assert lines[begin..next] + lines[next..end] == lines[begin..end];
    TextAppends(lines[begin..next], lines[next..end]);
    assert next == end ==> |content[..pos]| == |content| + |partial|;
    if pos == |content| {
      assert Text(lines[next..end]) == partial by {
        assert content[|Text(lines[begin..next])|..] == Text(lines[next..end]);
        assert content[..pos] == content;
        assert content[|Text(lines[begin..next])|..] == partial;
      }
      NoLinesNoLf(lines[next..end]);
    }
  }

  /** A switch skips no line exactly when it is clean. */
  lemma SwitchSkipsNothingIffClean(cfg: Config, m: Machine)
    requires Inv(cfg, m) && cfg.unix && Switches(cfg.unix, m.reader, m.disk)
    ensures m.trace.next <= ReopenStep(cfg, m).trace.next
    ensures m.trace.next == ReopenStep(cfg, m).trace.next <==> CleanSwitch(m)
  {
    hide *;
    ReopenKeeps(cfg, m);
    SwitchLandsAt(cfg, m);
    CleanFromFile(m);
    if m.reader.file.Some? {
      LeavingAFile(cfg, m);
      var t, h := m.trace, m.reader.file.value;
      ReadToTheEnd(m.disk.inodes[h.inode], t.lines, BeginOf(t.lines, t.begins, t.at), t.next,
                   BeginOf(t.lines, t.begins, t.at + 1), m.reader.partial, h.pos);
    }
  }

  lemma SwitchLandsAt(cfg: Config, m: Machine)
    requires Inv(cfg, m) && cfg.unix && Switches(cfg.unix, m.reader, m.disk)
    ensures Active in m.disk.names
    ensures var (t, active) := (m.trace, m.disk.names[Active]);
            && t.at <= active < |t.begins| && ReopenStep(cfg, m).trace.next == BeginOf(t.lines, t.begins, active)
            && (forall i, j :: 0 <= i < j < |t.begins| ==> BeginOf(t.lines, t.begins, i) < BeginOf(t.lines, t.begins, j))
            && (m.reader.file.None? ==> t.next == BeginOf(t.lines, t.begins, t.at))
  {
    hide Identified, Delivered, InOrder, Text, NoLf, Holds;
    ShrankNeverFires(cfg, m);
  }

  /** From a file that was rotated away, which is no longer written. */
  lemma LeavingAFile(cfg: Config, m: Machine)
    requires Inv(cfg, m) && cfg.unix && Switches(cfg.unix, m.reader, m.disk) && m.reader.file.Some?
    ensures var (t, h) := (m.trace, m.reader.file.value);
            && h.inode == t.at < m.disk.names[Active] < |m.disk.inodes| && h.pos <= |m.disk.inodes[h.inode]|
            && BeginOf(t.lines, t.begins, t.at) <= t.next <= BeginOf(t.lines, t.begins, t.at + 1) <= |t.lines|
            && m.disk.inodes[h.inode] == Text(t.lines[BeginOf(t.lines, t.begins, t.at)..BeginOf(t.lines, t.begins, t.at + 1)])
            && m.disk.inodes[h.inode][..h.pos] == Text(t.lines[BeginOf(t.lines, t.begins, t.at)..t.next]) + m.reader.partial
            && NoLf(m.reader.partial)
  {
    var t, h := m.trace, m.reader.file.value;
    ShrankNeverFires(cfg, m);
    hide Identified, Delivered, InOrder, Text, NoLf;
    assert Holds(m.disk.inodes[h.inode], m.writer, t.lines, t.begins, h.inode);
    assert Tail(m.writer, h.inode) == "";
  }

  lemma CleanFromFile(m: Machine)
    requires Active in m.disk.names
    ensures m.reader.file.None? ==> (CleanSwitch(m) <==> m.disk.names[Active] == m.trace.at)
    ensures m.reader.file.Some? ==>
              var h := m.reader.file.value;
              CleanSwitch(m) <==>
              && m.disk.names[Active] == h.inode + 1 && h.inode < |m.disk.inodes| && h.pos == |m.disk.inodes[h.inode]|
  {
  }

  /** Delivered so far: every line from the first to the last, none missing. */
  predicate Lossless(t: Trace) {
    && t.first + |t.taken| == t.next
    && forall k :: 0 <= k < |t.taken| ==> t.taken[k] == t.first + k
  }

  lemma {:induction false} CountIsAtMost(taken: seq<nat>, first: nat, next: nat)
    requires InOrder(taken, first, next)
    ensures first + |taken| <= next
    ensures first + |taken| == next ==> forall k :: 0 <= k < |taken| ==> taken[k] == first + k
  {
    if taken != [] {
      var last := taken[|taken| - 1];
      CountIsAtMost(taken[..|taken| - 1], first, last);
    }
  }

  predicate AllClean(cfg: Config, m: Machine, choices: seq<Choice>) {
    forall i :: 0 <= i < |choices| ==> Clean(cfg, Run(cfg, m, choices[..i]), choices[i])
  }

  lemma StepCounts(cfg: Config, m: Machine, c: Choice)
    requires Inv(cfg, m) && cfg.unix
    ensures var t, later := m.trace, Step(cfg, m, c).trace;
            && later.first == t.first
            && later.next - |later.taken| >= t.next - |t.taken|
            && (later.next - |later.taken| == t.next - |t.taken| <==> Clean(cfg, m, c))
  {
    match c
    case Read(k) => if CanRead(m, k) { ReadKeepsReader(m, k); }
    case Reopen => if Switches(cfg.unix, m.reader, m.disk) { SwitchSkipsNothingIffClean(cfg, m); }
    case _ => WriterStepGrows(cfg, m, c);
  }

  lemma CleanSplits(cfg: Config, m: Machine, front: seq<Choice>, last: Choice)
    ensures AllClean(cfg, m, front + [last]) <==> AllClean(cfg, m, front) && Clean(cfg, Run(cfg, m, front), last)
  {
    var choices := front + [last];
    assert choices[..|front|] == front;
    assert forall i :: 0 <= i < |front| ==> choices[..i] == front[..i];
    if AllClean(cfg, m, choices) {
      assert Clean(cfg, Run(cfg, m, choices[..|front|]), choices[|front|]);
      forall i | 0 <= i < |front|
        ensures Clean(cfg, Run(cfg, m, front[..i]), front[i])
      {
        assert Clean(cfg, Run(cfg, m, choices[..i]), choices[i]);
      }
    }
  }

  lemma LosslessStep(t: Trace, later: Trace, clean: bool)
    requires InOrder(t.taken, t.first, t.next) && InOrder(later.taken, later.first, later.next)
    requires later.first == t.first && later.next - |later.taken| >= t.next - |t.taken|
    requires later.next - |later.taken| == t.next - |t.taken| <==> clean
    ensures Lossless(later) <==> Lossless(t) && clean
  {
    CountIsAtMost(t.taken, t.first, t.next);
    CountIsAtMost(later.taken, later.first, later.next);
  }

  lemma RunIsInOrder(cfg: Config, m: Machine, choices: seq<Choice>)
    requires Initial(cfg, m) && cfg.unix
    ensures var t := Run(cfg, m, choices).trace; InOrder(t.taken, t.first, t.next)
  {
    InitialHolds(cfg, m);
    RunKeeps(cfg, m, choices);
  }

  lemma LastStepCounts(cfg: Config, m: Machine, choices: seq<Choice>)
    requires Initial(cfg, m) && cfg.unix && choices != []
    ensures var before := Run(cfg, m, choices[..|choices| - 1]);
            var t, later := before.trace, Run(cfg, m, choices).trace;
            && later.first == t.first
            && later.next - |later.taken| >= t.next - |t.taken|
            && (later.next - |later.taken| == t.next - |t.taken| <==> Clean(cfg, before, choices[|choices| - 1]))
  {
    InitialHolds(cfg, m);
    RunKeeps(cfg, m, choices[..|choices| - 1]);
    StepCounts(cfg, Run(cfg, m, choices[..|choices| - 1]), choices[|choices| - 1]);
  }

  /** Over a whole run nothing is lost if and only if every switch was clean. */
  lemma {:induction false} LosslessIffSwitchesAreClean(cfg: Config, m: Machine, choices: seq<Choice>)
    requires Initial(cfg, m) && cfg.unix
    ensures Lossless(Run(cfg, m, choices).trace) <==> AllClean(cfg, m, choices)
  {
    if choices != [] {
      var front, last := choices[..|choices| - 1], choices[|choices| - 1];
      hide *;
      LosslessIffSwitchesAreClean(cfg, m, front);
      RunIsInOrder(cfg, m, front);
      RunIsInOrder(cfg, m, choices);
      LastStepCounts(cfg, m, choices);
      LosslessStep(Run(cfg, m, front).trace, Run(cfg, m, choices).trace, Clean(cfg, Run(cfg, m, front), last));
      CleanSplits(cfg, m, front, last);
      assert choices == front + [last];
    }
  }

  /** A lossless reader at the end of the newest file, with no line under way,
      has shown everything written. */
  lemma CaughtUp(cfg: Config, m: Machine)
    requires Inv(cfg, m) && Lossless(m.trace) && m.writer.pc.Idle?
    requires m.reader.file == Some(Handle(m.writer.file, |m.disk.inodes[m.writer.file]|))
    ensures m.trace.next == |m.trace.lines|
    ensures |m.out| == |m.trace.lines| - m.trace.first
    ensures forall k :: 0 <= k < |m.out| ==> m.out[k] == m.trace.lines[m.trace.first + k] + LF
  {
    var t, last := m.trace, m.writer.file;
    assert Holds(m.disk.inodes[last], m.writer, t.lines, t.begins, last);
    var begin, end := BeginOf(t.lines, t.begins, last), BeginOf(t.lines, t.begins, last + 1);
    assert m.disk.inodes[last] == Text(t.lines[begin..end]);
    ReadToTheEnd(m.disk.inodes[last], t.lines, begin, t.next, end, m.reader.partial, |m.disk.inodes[last]|);
  }

  // ---------------------------------------------------------------- when a switch is clean

  predicate NoReopen(choices: seq<Choice>) {
    forall i :: 0 <= i < |choices| ==> !choices[i].Reopen?
  }

  /** The reader stays on its file and the files only grow in number. */
  ghost predicate StaysOn(inode: nat, pos: nat, files: nat, m: Machine) {
    && m.reader.file.Some? && m.reader.file.value.inode == inode
    && pos <= m.reader.file.value.pos && inode < files <= |m.disk.inodes|
  }

  lemma StepStaysOn(cfg: Config, m: Machine, c: Choice, inode: nat, pos: nat, files: nat)
    requires StaysOn(inode, pos, files, m) && !c.Reopen?
    ensures StaysOn(inode, pos, files, Step(cfg, m, c))
  {
    if !c.Read? {
      WriterStepGrows(cfg, m, c);
    }
  }

  lemma {:induction false} BetweenReopens(cfg: Config, m: Machine, choices: seq<Choice>, inode: nat, pos: nat, files: nat)
    requires StaysOn(inode, pos, files, m) && NoReopen(choices)
    ensures StaysOn(inode, pos, files, Run(cfg, m, choices))
  {
    if choices != [] {
      var front := choices[..|choices| - 1];
      BetweenReopens(cfg, m, front, inode, pos, files);
      StepStaysOn(cfg, Run(cfg, m, front), choices[|choices| - 1], inode, pos, files);
    }
  }

  function Content(m: Machine, inode: nat): string {
    if inode < |m.disk.inodes| then m.disk.inodes[inode] else ""
  }

  lemma DrainedReopenIsClean(cfg: Config, m: Machine, inode: nat, pos: nat)
    requires Inv(cfg, m) && cfg.unix && StaysOn(inode, pos, inode + 1, m)
    requires pos == |Content(m, inode)| && |m.disk.inodes| <= inode + 2
    ensures Clean(cfg, m, Reopen)
  {
  }

  /** From a reader on the newest file: when its file has been drained, nothing
      more was written to that file, and at most one new file appeared before
      the reopen, the reopen loses nothing. */
  lemma OneRotationLosesNothing(cfg: Config, m: Machine, before: seq<Choice>, after: seq<Choice>)
    requires Inv(cfg, m) && cfg.unix && m.reader.file.Some?
    requires m.reader.file.value.inode == |m.disk.inodes| - 1
    requires NoReopen(before) && NoReopen(after)
    requires var drained := Run(cfg, m, before);
             var inode := m.reader.file.value.inode;
             && Position(drained.reader) == |Content(drained, inode)|
             && Content(Run(cfg, drained, after), inode) == Content(drained, inode)
             && |Run(cfg, drained, after).disk.inodes| <= |m.disk.inodes| + 1
    ensures Clean(cfg, Run(cfg, Run(cfg, m, before), after), Reopen)
  {
    var inode, files := m.reader.file.value.inode, |m.disk.inodes|;
    var drained := Run(cfg, m, before);
    BetweenReopens(cfg, m, before, inode, 0, files);
    BetweenReopens(cfg, drained, after, inode, Position(drained.reader), files);
    RunKeeps(cfg, m, before);
    RunKeeps(cfg, drained, after);
    DrainedReopenIsClean(cfg, Run(cfg, drained, after), inode, Position(drained.reader));
  }

  // ---------------------------------------------------------------- identity by length

  /** Where files are told apart by length alone, a reopen of the same file
      starts it over, and shows its lines again, exactly when the file has
      changed length since it was opened and some of its lines were shown. */
  lemma ReplaysIffGrown(cfg: Config, m: Machine)
    requires Inv(cfg, m) && !cfg.unix && Active in m.disk.names && m.reader.file.Some?
    requires m.reader.file.value.inode == m.disk.names[Active]
    ensures ReopenStep(cfg, m).trace.next < m.trace.next <==>
            && Length(|m.disk.inodes[m.disk.names[Active]]|) != m.reader.identity.value
            && BeginOf(m.trace.lines, m.trace.begins, m.trace.at) < m.trace.next
  {
  }

  lemma Then(cfg: Config, m: Machine, choices: seq<Choice>, c: Choice) returns (more: seq<Choice>)
    ensures Run(cfg, m, more) == Step(cfg, Run(cfg, m, choices), c)
  {
    more := choices + [c];
    assert more[..|choices|] == choices;
  }

  const BY_LENGTH := Config(false, 100, 1)

  const NOTHING_YET := Machine(Disk(map[], []), Writer(Closed, 0, 0), Reader(None, None, ""), [], Trace([], [], 0, 0, 0, []))

  lemma OneLineWritten() returns (choices: seq<Choice>)
    ensures Run(BY_LENGTH, NOTHING_YET, choices) ==
            Machine(Disk(map[Active := 0], ["a\n"]), Writer(Idle, 0, 2), Reader(Some(Handle(0, 0)), Some(Length(0)), ""), [],
                    Trace(["a"], [0], 0, 0, 0, []))
  {
    choices := Then(BY_LENGTH, NOTHING_YET, [], OpenLog);
    choices := Then(BY_LENGTH, NOTHING_YET, choices, Reopen);
    var m := Run(BY_LENGTH, NOTHING_YET, choices);
    assert m.disk == Disk(map[Active := 0], [""]) && m.trace == Trace([], [0], 0, 0, 0, []);
    choices := Then(BY_LENGTH, NOTHING_YET, choices, Begin("a"));
    choices := Then(BY_LENGTH, NOTHING_YET, choices, Write(2));
    assert "" + ("a" + LF)[0..2] == "a\n";
  }

  /** One line, shown twice. */
  lemma LengthIdentityShowsALineTwice() returns (choices: seq<Choice>)
    ensures Initial(BY_LENGTH, NOTHING_YET)
    ensures var m := Run(BY_LENGTH, NOTHING_YET, choices); m.trace.lines == ["a"] && m.out == ["a\n", "a\n"]
  {
    choices := OneLineWritten();
    LineReadTwice(Run(BY_LENGTH, NOTHING_YET, choices));
    assert Initial(BY_LENGTH, NOTHING_YET);
    hide *;
    choices := Then(BY_LENGTH, NOTHING_YET, choices, Read(2));
    choices := Then(BY_LENGTH, NOTHING_YET, choices, Reopen);
    choices := Then(BY_LENGTH, NOTHING_YET, choices, Read(2));
  }

  lemma LineReadTwice(m: Machine)
    requires m.disk == Disk(map[Active := 0], ["a\n"]) && m.reader == Reader(Some(Handle(0, 0)), Some(Length(0)), "")
    requires m.out == []
    ensures var later := Step(BY_LENGTH, Step(BY_LENGTH, Step(BY_LENGTH, m, Read(2)), Reopen), Read(2));
            later.trace.lines == m.trace.lines && later.out == ["a\n", "a\n"]
  {
    assert "a\n"[0..2] == "a\n" && "" + "a\n" == "a\n";
    var read := Step(BY_LENGTH, m, Read(2));
    assert read.out == ["a\n"] && read.reader == Reader(Some(Handle(0, 2)), Some(Length(0)), "") && read.disk == m.disk;
    var again := Step(BY_LENGTH, read, Reopen);
    assert again.reader == Reader(Some(Handle(0, 0)), Some(Length(2)), "") && again.out == ["a\n"];
  }
}
