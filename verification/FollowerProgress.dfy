/** The writer gets its lines into the log: from any state a run can reach, a
    line can be begun when none is, and one begun can be finished. */
module FollowerProgress {
  import opened Wrappers
  import opened LogFiles
  import opened Follower
  import FollowerProofs

  predicate MidLine(pc: Pc) {
    !pc.Closed? && !pc.Idle?
  }

  function LineOf(pc: Pc): string
    requires MidLine(pc)
  {
    pc.line
  }

  /** What is left to do of the line. */
  function Left(cfg: Config, pc: Pc): nat
    requires MidLine(pc)
  {
    match pc
    case Clearing(line) => cfg.retained + |line| + 5
    case Shifting(n, line) => n + |line| + 4
    case Creating(line) => |line| + 3
    case Writing(line, done) => if done <= |line| then |line| + 2 - done else 0
  }

  /** A line is begun exactly when the writer is idle and the line holds no LF;
      it is rotated for first exactly when it would overflow a file that is not empty. */
  lemma LineBegins(cfg: Config, m: Machine, line: string)
    requires m.writer.pc.Idle? && NoLf(line)
    ensures var later := Step(cfg, m, Begin(line));
            && later.writer.pc ==
               (if m.writer.size > 0 && m.writer.size + |line + LF| > cfg.maxBytes then Clearing(line) else Writing(line, 0))
            && later.trace == m.trace && later.disk == m.disk
  {
  }

  lemma NextMove(cfg: Config, m: Machine) returns (c: Choice)
    requires cfg.retained >= 1 && Inv(cfg, m) && MidLine(m.writer.pc)
    ensures var (now, later) := (m.writer.pc, Step(cfg, m, c));
            if later.writer.pc.Idle? then later.trace.lines == m.trace.lines + [LineOf(now)]
            else
              && MidLine(later.writer.pc) && LineOf(later.writer.pc) == LineOf(now)
              && later.trace.lines == m.trace.lines && Left(cfg, later.writer.pc) < Left(cfg, now)
  {
    c := if m.writer.pc.Writing? then Write(1) else Advance;
    InvMeans(cfg, m);
    hide Inv, OpenAppend, Remove, Rename, Append, NoLf;
  }

  lemma InvMeans(cfg: Config, m: Machine)
    requires Inv(cfg, m)
    ensures MidLine(m.writer.pc) && !m.writer.pc.Creating? ==> Active in m.disk.names
    ensures m.writer.pc.Writing? ==> m.writer.pc.done <= |m.writer.pc.line| && m.writer.file < |m.disk.inodes|
  {
    hide Ascending, PlainLines, Contents, ReaderSound, Identified, Delivered, InOrder;
  }

  lemma {:induction false} RunAfter(cfg: Config, m: Machine, c: Choice, rest: seq<Choice>)
    ensures Run(cfg, m, [c] + rest) == Run(cfg, Step(cfg, m, c), rest)
    decreases |rest|
  {
    hide Step;
    var all := [c] + rest;
    if rest == [] {
      assert all[..0] == [] && Run(cfg, m, []) == m;
    } else {
      RunAfter(cfg, m, c, rest[..|rest| - 1]);
      assert all[..|all| - 1] == [c] + rest[..|rest| - 1] && all[|all| - 1] == rest[|rest| - 1];
    }
  }

  /** A line begun can always be finished: it is then the newest whole line. */
  lemma {:induction false} LineCanBeFinished(cfg: Config, m: Machine) returns (choices: seq<Choice>)
    requires cfg.retained >= 1 && Inv(cfg, m) && MidLine(m.writer.pc)
    ensures var later := Run(cfg, m, choices);
            && later.writer.pc.Idle? && later.trace.lines == m.trace.lines + [LineOf(m.writer.pc)] && Inv(cfg, later)
    decreases Left(cfg, m.writer.pc)
  {
    hide Step, Inv, Left, Run;
    var c := NextMove(cfg, m);
    var next := Step(cfg, m, c);
    FollowerProofs.StepKeeps(cfg, m, c);
    if next.writer.pc.Idle? {
      RunAfter(cfg, m, c, []);
      NoMoreRun(cfg, next);
      choices := [c];
      assert [c] + [] == [c];
    } else {
      var rest := LineCanBeFinished(cfg, next);
      RunAfter(cfg, m, c, rest);
      choices := [c] + rest;
    }
  }

  lemma NoMoreRun(cfg: Config, m: Machine)
    ensures Run(cfg, m, []) == m
  {
  }

  /** Whenever the writer is idle any line without an LF can be written whole. */
  lemma AnyLineCanBeWritten(cfg: Config, m: Machine, line: string) returns (choices: seq<Choice>)
    requires cfg.retained >= 1 && Inv(cfg, m) && m.writer.pc.Idle? && NoLf(line)
    ensures var later := Run(cfg, m, choices);
            later.writer.pc.Idle? && later.trace.lines == m.trace.lines + [line]
  {
    LineBegins(cfg, m, line);
    hide Step, Inv, Run;
    FollowerProofs.StepKeeps(cfg, m, Begin(line));
    var rest := LineCanBeFinished(cfg, Step(cfg, m, Begin(line)));
    RunAfter(cfg, m, Begin(line), rest);
    choices := [Begin(line)] + rest;
  }

  /** The reader takes any chunk there is, and a reopen what the name stands for. */
  lemma ReaderTakesAChunk(cfg: Config, m: Machine, k: nat)
    requires CanRead(m, k)
    ensures var (h, later) := (m.reader.file.value, Step(cfg, m, Read(k)));
            var chunk := m.disk.inodes[h.inode][h.pos..h.pos + k];
            && later.reader.file == Some(Handle(h.inode, h.pos + k))
            && later.out + [later.reader.partial] ==
               m.out + if chunk[k - 1] == '\n' then [m.reader.partial + chunk, ""] else [m.reader.partial + chunk]
  {
  }
}
