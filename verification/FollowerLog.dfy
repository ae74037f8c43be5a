/** The writer that works step by step and the log as a value: whenever it is
    between two lines, its files show the log those lines make. */
module FollowerLog {
  import opened Wrappers
  import opened LogFiles
  import opened Follower

  /** The log a line is written to: rotated first when the line would overflow it. */
  function Base(log: Log, line: string, cfg: Config): Log
    requires cfg.retained >= 1
  {
    if Overflows(log.active, line + LF, cfg.maxBytes) then Rotate(log, cfg.retained) else log
  }

  ghost predicate Between(cfg: Config, d: Disk, w: Writer, log: Log) {
    Shows(d, log, cfg.retained) && w.file == d.names[Active] && w.size == |Flat(log.active)|
  }

  /** The renames have come down to `.n`, from names under which the files show the log. */
  ghost predicate ShiftedTo(d: Disk, before: map<Name, nat>, n: nat, log: Log, retained: nat) {
    && Shows(Disk(before, d.inodes), log, retained) && Sound(d) && n < retained
    && MovedDownTo(before, d.names, n, retained)
  }

  /** The active file holds its records and the first bytes of the next one. */
  ghost predicate Torn(cfg: Config, d: Disk, w: Writer, log: Log, record: string, done: nat) {
    && done <= |record| && w.file < |d.inodes|
    && d.inodes[w.file] == Flat(log.active) + record[..done]
    && Between(cfg, d.(inodes := d.inodes[w.file := Flat(log.active)]), w, log)
  }

  /** The files show `log`, but for the append under way. */
  ghost predicate Agrees(cfg: Config, d: Disk, w: Writer, log: Log)
    requires cfg.retained >= 1
  {
    match w.pc
    case Closed => Sound(d) && Shows(OpenAppend(d), log, cfg.retained)
    case Idle => Between(cfg, d, w, log)
    case Clearing(line) => Between(cfg, d, w, log) && Overflows(log.active, line + LF, cfg.maxBytes)
    case Shifting(n, line) =>
      Overflows(log.active, line + LF, cfg.maxBytes) && exists before :: ShiftedTo(d, before, n, log, cfg.retained)
    case Creating(line) =>
      && Overflows(log.active, line + LF, cfg.maxBytes) && Sound(d) && Active !in d.names
      && Shows(OpenAppend(d), Rotate(log, cfg.retained), cfg.retained)
    case Writing(line, done) => done <= |line| && Torn(cfg, d, w, Base(log, line, cfg), line + LF, done)
  }

  /** What a step appends to the log. */
  function Appended(m: Machine, c: Choice): seq<string> {
    match m.writer.pc
    case Writing(line, done) =>
      if c.Write? && c.k > 0 && done + c.k == |line| + 1 && m.writer.file < |m.disk.inodes| then [line] else []
    case _ => []
  }

  lemma OpenAgrees(cfg: Config, m: Machine, log: Log)
    requires cfg.retained >= 1 && m.writer.pc.Closed? && Agrees(cfg, m.disk, m.writer, log)
    ensures var later := WithNewActive(m, Idle); Agrees(cfg, later.disk, later.writer, log)
  {
    hide MovedDownTo, Base;
  }

  lemma NothingTorn(cfg: Config, d: Disk, w: Writer, log: Log, record: string)
    requires Between(cfg, d, w, log)
    ensures Torn(cfg, d, w, log, record, 0)
  {
    assert d.inodes[w.file := Flat(log.active)] == d.inodes;
    assert record[..0] == "" && Flat(log.active) + "" == Flat(log.active);
  }

  lemma BeginAgrees(cfg: Config, m: Machine, log: Log, line: string)
    requires cfg.retained >= 1 && m.writer.pc.Idle? && Agrees(cfg, m.disk, m.writer, log)
    ensures var later := BeginStep(cfg, m, line); Agrees(cfg, later.disk, later.writer, log)
  {
    NothingTorn(cfg, m.disk, m.writer, log, line + LF);
    hide Shows, Flat, NoLf, Torn;
    assert |line + LF| == |line| + 1;
  }

  lemma ClearAgrees(cfg: Config, m: Machine, log: Log)
    requires cfg.retained >= 1 && m.writer.pc.Clearing? && Agrees(cfg, m.disk, m.writer, log)
    ensures var later := AdvanceStep(cfg, m); Agrees(cfg, later.disk, later.writer, log)
  {
    hide Flat, Base;
    assert ShiftedTo(Remove(m.disk, Rotated(cfg.retained)), m.disk.names, cfg.retained - 1, log, cfg.retained);
  }

  lemma ShiftAgrees(cfg: Config, m: Machine, log: Log)
    requires cfg.retained >= 1 && m.writer.pc.Shifting? && Agrees(cfg, m.disk, m.writer, log)
    ensures var later := AdvanceStep(cfg, m); Agrees(cfg, later.disk, later.writer, log)
  {
    var d, n := m.disk, m.writer.pc.n;
    var before :| ShiftedTo(d, before, n, log, cfg.retained);
    hide Flat, Base;
    if n > 0 {
      RenameMovesDown(before, d, n, cfg.retained);
      hide Shows, MovedDownTo;
      var later := AdvanceStep(cfg, m).disk;
      assert ShiftedTo(later, before, n - 1, log, cfg.retained);
    } else {
      RotationShows(Disk(before, d.inodes), d, log, cfg.retained);
      ActiveStays(before, d, log, cfg.retained);
      hide Shows, MovedDownTo, Rotate;
    }
  }

  lemma ActiveStays(before: map<Name, nat>, d: Disk, log: Log, retained: nat)
    requires ShiftedTo(d, before, 0, log, retained)
    ensures Active in d.names
  {
  }

  lemma CreateAgrees(cfg: Config, m: Machine, log: Log)
    requires cfg.retained >= 1 && m.writer.pc.Creating? && Agrees(cfg, m.disk, m.writer, log)
    ensures var later := AdvanceStep(cfg, m); Agrees(cfg, later.disk, later.writer, log)
  {
    var later, line := AdvanceStep(cfg, m), m.writer.pc.line;
    assert Between(cfg, later.disk, later.writer, Rotate(log, cfg.retained));
    NothingTorn(cfg, later.disk, later.writer, Rotate(log, cfg.retained), line + LF);
    hide Torn, Between, Shows;
  }

  lemma TornFurther(cfg: Config, d: Disk, w: Writer, log: Log, record: string, done: nat, k: nat)
    requires Torn(cfg, d, w, log, record, done) && done + k <= |record|
    ensures Torn(cfg, Append(d, w.file, record[done..done + k]), w, log, record, done + k)
  {
    var later := Append(d, w.file, record[done..done + k]);
    assert record[..done] + record[done..done + k] == record[..done + k];
    assert later.inodes[w.file := Flat(log.active)] == d.inodes[w.file := Flat(log.active)];
    hide Between, Flat;
  }

  lemma TornWhole(cfg: Config, d: Disk, w: Writer, log: Log, record: string)
    requires Torn(cfg, d, w, log, record, |record|)
    ensures Between(cfg, d, Writer(Idle, w.file, w.size + |record|), log.(active := log.active + [record]))
  {
    FlatOfOneMore(log.active, record);
    assert record[..|record|] == record;
    hide Flat;
  }

  /** What `Torn` says does not depend on where the writer is. */
  lemma TornAnywhere(cfg: Config, d: Disk, w: Writer, w': Writer, log: Log, record: string, done: nat)
    requires Torn(cfg, d, w, log, record, done) && w'.file == w.file && w'.size == w.size
    ensures Torn(cfg, d, w', log, record, done)
  {
    hide Shows, Flat;
  }

  lemma WriteAgrees(cfg: Config, m: Machine, log: Log, k: nat)
    requires cfg.retained >= 1 && m.writer.pc.Writing? && Agrees(cfg, m.disk, m.writer, log)
    ensures var later := WriteStep(m, k);
            Agrees(cfg, later.disk, later.writer, AfterAppends(log, Records(Appended(m, Write(k))), cfg.maxBytes, cfg.retained))
  {
    var w := m.writer;
    var line, done := w.pc.line, w.pc.done;
    var base := Base(log, line, cfg);
    hide Torn, Between, Shows, Flat, Base, AfterAppends, Records, Overflows, ShiftedTo, OpenAppend, Rotate, Sound;
    if k > 0 && done + k <= |line| + 1 && w.file < |m.disk.inodes| {
      TornFurther(cfg, m.disk, w, base, line + LF, done, k);
      var d := Append(m.disk, w.file, (line + LF)[done..done + k]);
      if done + k <= |line| {
        TornAnywhere(cfg, d, w, w.(pc := Writing(line, done + k)), base, line + LF, done + k);
      } else {
        TornWhole(cfg, d, w, base, line + LF);
        OneAppended(log, line, cfg);
      }
    }
  }

  function Records(lines: seq<string>): (records: seq<string>)
    ensures |records| == |lines| && forall i :: 0 <= i < |lines| ==> records[i] == lines[i] + LF
  {
    seq(|lines|, i requires 0 <= i < |lines| => lines[i] + LF)
  }

  lemma OneAppended(log: Log, line: string, cfg: Config)
    requires cfg.retained >= 1
    ensures AfterAppends(log, Records([line]), cfg.maxBytes, cfg.retained)
            == Base(log, line, cfg).(active := Base(log, line, cfg).active + [line + LF])
  {
    hide Flat;
    assert Records([line]) == [line + LF] && [line + LF][..0] == [];
    assert AfterAppends(log, [], cfg.maxBytes, cfg.retained) == log;
  }

  lemma WriterStepAgrees(cfg: Config, m: Machine, c: Choice, log: Log)
    requires cfg.retained >= 1 && Agrees(cfg, m.disk, m.writer, log)
    ensures var later := Step(cfg, m, c);
            Agrees(cfg, later.disk, later.writer, AfterAppends(log, Records(Appended(m, c)), cfg.maxBytes, cfg.retained))
  {
    var w := m.writer;
    hide Agrees;
    assert AfterAppends(log, [], cfg.maxBytes, cfg.retained) == log && Records([]) == [];
    match c
    case OpenLog => if w.pc.Closed? { OpenAgrees(cfg, m, log); }
    case Begin(line) => if w.pc.Idle? { BeginAgrees(cfg, m, log, line); }
    case Advance =>
      if w.pc.Clearing? { ClearAgrees(cfg, m, log); }
      else if w.pc.Shifting? { ShiftAgrees(cfg, m, log); }
      else if w.pc.Creating? { CreateAgrees(cfg, m, log); }
    case Write(k) => if w.pc.Writing? { WriteAgrees(cfg, m, log, k); }
    case Read(_) =>
    case Reopen =>
  }

  lemma StepAppends(cfg: Config, m: Machine, c: Choice)
    ensures Step(cfg, m, c).trace.lines == m.trace.lines + Appended(m, c)
  {
  }

  /** The records of the lines written since. */
  function Since(lines: seq<string>, later: seq<string>): seq<string> {
    if |lines| <= |later| then Records(later[|lines|..]) else []
  }

  lemma {:induction false} AppendsOfTwo(log: Log, a: seq<string>, b: seq<string>, maxBytes: nat, retained: nat)
    requires retained >= 1
    ensures AfterAppends(log, a + b, maxBytes, retained) == AfterAppends(AfterAppends(log, a, maxBytes, retained), b, maxBytes, retained)
  {
    hide AfterAppend;
    if b == [] {
      assert a + b == a;
    } else {
      var n := |b| - 1;
      assert (a + b)[..|a + b| - 1] == a + b[..n] && (a + b)[|a + b| - 1] == b[n];
      AppendsOfTwo(log, a, b[..n], maxBytes, retained);
    }
  }

  lemma {:induction false} RunAgrees(cfg: Config, m: Machine, choices: seq<Choice>, log: Log)
    requires cfg.retained >= 1 && Agrees(cfg, m.disk, m.writer, log)
    ensures var later := Run(cfg, m, choices);
            && m.trace.lines <= later.trace.lines
            && Agrees(cfg, later.disk, later.writer,
                      AfterAppends(log, Since(m.trace.lines, later.trace.lines), cfg.maxBytes, cfg.retained))
  {
    if choices == [] {
      assert Since(m.trace.lines, m.trace.lines) == [];
    } else {
      var front, last := choices[..|choices| - 1], choices[|choices| - 1];
      var before := Run(cfg, m, front);
      RunAgrees(cfg, m, front, log);
      hide Agrees, Step, AfterAppends;
      var so, one := Since(m.trace.lines, before.trace.lines), Appended(before, last);
      WriterStepAgrees(cfg, before, last, AfterAppends(log, so, cfg.maxBytes, cfg.retained));
      StepAppends(cfg, before, last);
      AppendsOfTwo(log, so, Records(one), cfg.maxBytes, cfg.retained);
      assert Since(m.trace.lines, before.trace.lines + one) == so + Records(one);
    }
  }

  /** Whatever readers do meanwhile and however the writer's steps fall, between
      two lines its files show exactly the log that appending the lines makes. */
  lemma WriterKeepsTheLog(cfg: Config, m: Machine, choices: seq<Choice>, log: Log)
    requires cfg.retained >= 1 && m.writer.pc.Closed? && Sound(m.disk)
    requires Shows(OpenAppend(m.disk), log, cfg.retained)
    ensures var later := Run(cfg, m, choices);
            later.writer.pc.Idle? ==>
              Shows(later.disk, AfterAppends(log, Since(m.trace.lines, later.trace.lines), cfg.maxBytes, cfg.retained), cfg.retained)
  {
    RunAgrees(cfg, m, choices, log);
    hide Shows, AfterAppends, Run;
  }
}
