/** A reader following a log while its writer appends and rotates: every
    interleaving of the writer's file operations with the reader's chunks and
    reopens. */
module Follower {
  import opened Wrappers
  import opened LogFiles

  // ---------------------------------------------------------------- the reader

  /** What tells two files apart: the inode where there is one, else the length. */
  datatype Identity = Inode(number: nat) | Length(bytes: nat)

  datatype Handle = Handle(inode: nat, pos: nat)

  datatype Reader = Reader(file: Option<Handle>, identity: Option<Identity>, partial: string)

  function IdentityOf(unix: bool, d: Disk, inode: nat): Identity
    requires inode < |d.inodes|
  {
    if unix then Inode(inode) else Length(|d.inodes[inode]|)
  }

  /** A file that does not exist yet reads as empty. */
  function Opened(unix: bool, d: Disk): Reader
    requires Sound(d)
  {
    if Active in d.names
    then Reader(Some(Handle(d.names[Active], 0)), Some(IdentityOf(unix, d, d.names[Active])), "")
    else Reader(None, None, "")
  }

  predicate EndsInLf(chunk: string) {
    chunk != "" && chunk[|chunk| - 1] == '\n'
  }

  predicate NoLf(s: string) {
    forall i :: 0 <= i < |s| ==> s[i] != '\n'
  }

  /** What one line read may return: up to and with the first LF, or what is
      there of a line still being written. */
  predicate IsChunk(chunk: string) {
    chunk != "" && NoLf(chunk[..|chunk| - 1])
  }

  /** A chunk completes the line begun before it, or is kept until its LF comes. */
  function Take(r: Reader, chunk: string): (Reader, seq<string>)
    requires r.file.Some?
  {
    var moved := r.(file := Some(r.file.value.(pos := r.file.value.pos + |chunk|)));
    if EndsInLf(chunk) then (moved.(partial := ""), [r.partial + chunk])
    else (moved.(partial := r.partial + chunk), [])
  }

  function Position(r: Reader): nat {
    if r.file.Some? then r.file.value.pos else 0
  }

  predicate Shrank(r: Reader, d: Disk, inode: nat)
    requires inode < |d.inodes|
  {
    |d.inodes[inode]| < Position(r)
  }

  predicate Switches(unix: bool, r: Reader, d: Disk)
    requires Sound(d)
  {
    && Active in d.names
    && (Some(IdentityOf(unix, d, d.names[Active])) != r.identity || Shrank(r, d, d.names[Active]))
  }

  /** A path that now names another file is read from its start. */
  function AfterReopen(unix: bool, r: Reader, d: Disk): Reader
    requires Sound(d)
  {
    if Switches(unix, r, d) then Opened(unix, d) else r
  }

  // ---------------------------------------------------------------- the writer

  /** Where the writer is in appending a line; `done` bytes of the line and its
      LF are in the file. */
  datatype Pc =
    | Closed
    | Idle
    | Clearing(line: string)
    | Shifting(n: nat, line: string)
    | Creating(line: string)
    | Writing(line: string, done: nat)

  datatype Writer = Writer(pc: Pc, file: nat, size: nat)

  datatype Config = Config(unix: bool, maxBytes: nat, retained: nat)

  // ---------------------------------------------------------------- both together

  /** Bookkeeping beside the run: the lines written whole, where each inode's
      lines begin among them, the inode the reader is at (or waits for), the
      line it will complete next, and the lines it has delivered. */
  datatype Trace = Trace(lines: seq<string>, begins: seq<nat>, first: nat, at: nat, next: nat, taken: seq<nat>)

  datatype Machine = Machine(disk: Disk, writer: Writer, reader: Reader, out: seq<string>, trace: Trace)

  datatype Choice = OpenLog | Begin(line: string) | Advance | Write(k: nat) | Read(k: nat) | Reopen

  function BeginOf(lines: seq<string>, begins: seq<nat>, i: nat): nat {
    if i < |begins| then begins[i] else |lines|
  }

  function WithNewActive(m: Machine, pc: Pc): Machine {
    var d := OpenAppend(m.disk);
    if Active in m.disk.names && m.disk.names[Active] < |m.disk.inodes|
    then m.(disk := d, writer := Writer(pc, m.disk.names[Active], |m.disk.inodes[m.disk.names[Active]]|))
    else m.(disk := d, writer := Writer(pc, |m.disk.inodes|, 0),
            trace := m.trace.(begins := m.trace.begins + [|m.trace.lines|]))
  }

  function BeginStep(cfg: Config, m: Machine, line: string): Machine {
    var w := m.writer;
    if !w.pc.Idle? || !NoLf(line) then m
    else if w.size > 0 && w.size + |line| + 1 > cfg.maxBytes then m.(writer := w.(pc := Clearing(line)))
    else m.(writer := w.(pc := Writing(line, 0)))
  }

  function AdvanceStep(cfg: Config, m: Machine): Machine {
    var w := m.writer;
    match w.pc
    case Clearing(line) =>
      m.(disk := Remove(m.disk, Rotated(cfg.retained)),
         writer := w.(pc := Shifting(if cfg.retained > 0 then cfg.retained - 1 else 0, line)))
    case Shifting(n, line) =>
      if n > 0 then
        var d := if Rotated(n) in m.disk.names then Rename(m.disk, Rotated(n), Rotated(n + 1)) else m.disk;
        m.(disk := d, writer := w.(pc := Shifting(n - 1, line)))
      else if Active in m.disk.names then
        m.(disk := Rename(m.disk, Active, Rotated(1)), writer := w.(pc := Creating(line)))
      else m
    case Creating(line) => WithNewActive(m, Writing(line, 0))
    case _ => m
  }

  /** The next `k` bytes of the line and its LF reach the file. */
  function WriteStep(m: Machine, k: nat): Machine {
    var w := m.writer;
    if !w.pc.Writing? || k == 0 || w.pc.done + k > |w.pc.line| + 1 || w.file >= |m.disk.inodes| then m
    else
      var d := Append(m.disk, w.file, (w.pc.line + LF)[w.pc.done..w.pc.done + k]);
      if w.pc.done + k <= |w.pc.line| then m.(disk := d, writer := w.(pc := Writing(w.pc.line, w.pc.done + k)))
      else
        m.(disk := d, writer := w.(pc := Idle, size := w.size + |w.pc.line| + 1),
           trace := m.trace.(lines := m.trace.lines + [w.pc.line]))
  }

  predicate CanRead(m: Machine, k: nat) {
    && m.reader.file.Some? && k > 0
    && var h := m.reader.file.value;
       && h.inode < |m.disk.inodes| && h.pos + k <= |m.disk.inodes[h.inode]|
       && IsChunk(m.disk.inodes[h.inode][h.pos..h.pos + k])
  }

  function ReadStep(m: Machine, k: nat): Machine {
    if !CanRead(m, k) then m
    else
      var h := m.reader.file.value;
      var (reader, lines) := Take(m.reader, m.disk.inodes[h.inode][h.pos..h.pos + k]);
      m.(reader := reader, out := m.out + lines,
         trace := if lines == [] then m.trace
                  else m.trace.(next := m.trace.next + 1, taken := m.trace.taken + [m.trace.next]))
  }

  function ReopenStep(cfg: Config, m: Machine): Machine {
    if Sound(m.disk) && Switches(cfg.unix, m.reader, m.disk) then
      var inode := m.disk.names[Active];
      m.(reader := AfterReopen(cfg.unix, m.reader, m.disk),
         trace := m.trace.(at := inode, next := BeginOf(m.trace.lines, m.trace.begins, inode)))
    else m
  }

  function Step(cfg: Config, m: Machine, c: Choice): Machine {
    match c
    case OpenLog => if m.writer.pc.Closed? then WithNewActive(m, Idle) else m
    case Begin(line) => BeginStep(cfg, m, line)
    case Advance => AdvanceStep(cfg, m)
    case Write(k) => WriteStep(m, k)
    case Read(k) => ReadStep(m, k)
    case Reopen => ReopenStep(cfg, m)
  }

  function Run(cfg: Config, m: Machine, choices: seq<Choice>): Machine {
    if choices == [] then m
    else Step(cfg, Run(cfg, m, choices[..|choices| - 1]), choices[|choices| - 1])
  }

  // ---------------------------------------------------------------- what every step keeps

  function Text(lines: seq<string>): string {
    if lines == [] then "" else lines[0] + LF + Text(lines[1..])
  }

  function Tail(w: Writer, i: nat): string {
    if w.pc.Writing? && i == w.file && w.pc.done <= |w.pc.line| then w.pc.line[..w.pc.done] else ""
  }

  function LinesOf(lines: seq<string>, begins: seq<nat>, i: nat): seq<string>
    requires i < |begins| && BeginOf(lines, begins, i) <= BeginOf(lines, begins, i + 1) <= |lines|
  {
    lines[BeginOf(lines, begins, i)..BeginOf(lines, begins, i + 1)]
  }

  /** Every file but the last holds at least one line; the lines' places ascend. */
  ghost predicate Ascending(lines: seq<string>, begins: seq<nat>) {
    && (forall i, j :: 0 <= i < j < |begins| ==> begins[i] < begins[j])
    && (forall i :: 0 <= i < |begins| ==> begins[i] <= |lines|)
  }

  ghost predicate PlainLines(lines: seq<string>) {
    forall i :: 0 <= i < |lines| ==> NoLf(lines[i])
  }

  predicate Holds(content: string, w: Writer, lines: seq<string>, begins: seq<nat>, i: nat) {
    && i < |begins| && BeginOf(lines, begins, i) <= BeginOf(lines, begins, i + 1) <= |lines|
    && content == Text(LinesOf(lines, begins, i)) + Tail(w, i)
  }

  /** Each file holds its whole lines, and the file being written its torn one. */
  ghost predicate Contents(inodes: seq<string>, w: Writer, lines: seq<string>, begins: seq<nat>) {
    && |begins| == |inodes|
    && forall i :: 0 <= i < |inodes| ==> Holds(inodes[i], w, lines, begins, i)
  }

  /** While the active name is missing, every file there is has been rotated away. */
  ghost predicate Naming(d: Disk, w: Writer, lines: seq<string>, begins: seq<nat>) {
    && Sound(d)
    && (Active !in d.names && begins != [] ==> begins[|begins| - 1] < |lines|)
    && (Active in d.names ==> d.names[Active] == |d.inodes| - 1)
    && (w.pc.Creating? ==> Active !in d.names)
    && (!w.pc.Closed? && !w.pc.Creating? ==> Active in d.names)
  }

  ghost predicate WriterSound(w: Writer, inodes: seq<string>) {
    && (!w.pc.Closed? ==> w.file < |inodes| && w.file == |inodes| - 1 && |inodes[w.file]| == w.size + |Tail(w, w.file)|)
    && (w.pc.Clearing? || w.pc.Shifting? || w.pc.Creating? ==> w.size > 0 && NoLf(w.pc.line))
    && (w.pc.Writing? ==> NoLf(w.pc.line) && w.pc.done <= |w.pc.line|)
  }

  /** The reader has consumed whole lines of its file and the start of the next one. */
  ghost predicate ReaderSound(inodes: seq<string>, absent: bool, lines: seq<string>, begins: seq<nat>,
                              r: Reader, at: nat, next: nat)
  {
    match r.file
    case None =>
      && r.partial == "" && r.identity.None?
      && at <= |begins| && next == BeginOf(lines, begins, at) && (at == |begins| ==> absent)
    case Some(h) =>
      && h.inode == at < |inodes| && at < |begins| && h.pos <= |inodes[at]|
      && BeginOf(lines, begins, at) <= next <= BeginOf(lines, begins, at + 1) <= |lines|
      && inodes[at][..h.pos] == Text(lines[BeginOf(lines, begins, at)..next]) + r.partial
      && NoLf(r.partial)
  }

  ghost predicate Identified(unix: bool, r: Reader, inodes: seq<string>) {
    r.file.Some? ==>
      && r.identity.Some? && r.file.value.inode < |inodes|
      && if unix then r.identity.value == Inode(r.file.value.inode)
         else r.identity.value.Length? && r.identity.value.bytes <= |inodes[r.file.value.inode]|
  }

  ghost predicate Delivered(out: seq<string>, lines: seq<string>, taken: seq<nat>) {
    && |out| == |taken|
    && forall k :: 0 <= k < |taken| ==> taken[k] < |lines| && out[k] == lines[taken[k]] + LF
  }

  ghost predicate InOrder(taken: seq<nat>, first: nat, next: nat) {
    && first <= next
    && (forall k :: 0 <= k < |taken| ==> first <= taken[k] < next)
    && (forall j, k :: 0 <= j < k < |taken| ==> taken[j] < taken[k])
  }

  ghost predicate Files(d: Disk, w: Writer, lines: seq<string>, begins: seq<nat>) {
    && Ascending(lines, begins) && PlainLines(lines)
    && Contents(d.inodes, w, lines, begins) && Naming(d, w, lines, begins) && WriterSound(w, d.inodes)
  }

  /** No log file has been created since the reader looked for one. */
  predicate Absent(d: Disk, w: Writer) {
    w.pc.Closed? && Active !in d.names
  }

  ghost predicate Inv(cfg: Config, m: Machine) {
    var t := m.trace;
    && Files(m.disk, m.writer, t.lines, t.begins)
    && ReaderSound(m.disk.inodes, Absent(m.disk, m.writer), t.lines, t.begins, m.reader, t.at, t.next)
    && Identified(cfg.unix, m.reader, m.disk.inodes)
    && Delivered(m.out, t.lines, t.taken)
    && (cfg.unix ==> InOrder(t.taken, t.first, t.next))
  }

  /** Files of whole lines, one of them active or none; the reader has just opened. */
  ghost predicate Initial(cfg: Config, m: Machine) {
    var t := m.trace;
    && m.writer.pc.Closed? && Files(m.disk, m.writer, t.lines, t.begins)
    && m.reader == Opened(cfg.unix, m.disk)
    && t.at == (if Active in m.disk.names then m.disk.names[Active] else |m.disk.inodes|)
    && t.next == BeginOf(t.lines, t.begins, t.at) && t.first == t.next
    && m.out == [] && t.taken == []
  }

  // ---------------------------------------------------------------- text

  lemma {:induction false} TextAppends(a: seq<string>, b: seq<string>)
    ensures Text(a + b) == Text(a) + Text(b)
  {
    if a == [] {
      assert a + b == b;
    } else {
      TextAppends(a[1..], b);
      assert (a + b)[1..] == a[1..] + b;
      assert a[0] + LF + (Text(a[1..]) + Text(b)) == (a[0] + LF + Text(a[1..])) + Text(b);
    }
  }

  lemma TextOfOneMore(lines: seq<string>, line: string)
    ensures Text(lines + [line]) == Text(lines) + (line + LF)
  {
    TextAppends(lines, [line]);
    assert Text([line]) == line + LF + Text([]);
  }

  lemma {:induction false} NoLinesNoLf(lines: seq<string>)
    ensures NoLf(Text(lines)) ==> lines == []
    ensures lines != [] ==> |Text(lines)| > 0
  {
    if lines != [] {
      assert Text(lines)[|lines[0]|] == '\n';
    }
  }

  /** The first text ending in its only LF at the front of whole lines is the
      first line. */
  lemma FirstLine(lines: seq<string>, tail: string, s: string)
    requires PlainLines(lines) && NoLf(tail)
    requires IsChunk(s) && EndsInLf(s) && s <= Text(lines) + tail
    ensures lines != [] && s == lines[0] + LF
  {
    var text := Text(lines) + tail;
    assert text[|s| - 1] == '\n';
    assert lines == [] ==> text == tail;
    assert lines != [] && NoLf(lines[0]);
    assert text[|lines[0]|] == '\n' && forall i :: 0 <= i < |lines[0]| ==> text[i] == lines[0][i];
    assert forall i :: 0 <= i < |s| - 1 ==> text[i] == s[..|s| - 1][i];
    assert |s| == |lines[0]| + 1;
    assert s == text[..|s|];
  }
}
