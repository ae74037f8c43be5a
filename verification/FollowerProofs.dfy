/** Every step of writer and reader keeps the invariant. */
module FollowerProofs {
  import opened Wrappers
  import opened LogFiles
  import opened Follower

  // ---------------------------------------------------------------- the writer's steps

  lemma NewActiveKeepsFiles(m: Machine, pc: Pc)
    requires Files(m.disk, m.writer, m.trace.lines, m.trace.begins)
    requires (m.writer.pc.Closed? && pc.Idle?) || (m.writer.pc.Creating? && pc == Writing(m.writer.pc.line, 0))
    ensures var later := WithNewActive(m, pc);
            Files(later.disk, later.writer, later.trace.lines, later.trace.begins)
  {
    hide *;
    forall i | 0 <= i < |WithNewActive(m, pc).disk.inodes|
      ensures var later := WithNewActive(m, pc);
              Holds(later.disk.inodes[i], later.writer, m.trace.lines, later.trace.begins, i)
    {
      NewActiveHolds(m, pc, i);
    }
    NewActiveRest(m, pc);
  }

  lemma NewActiveRest(m: Machine, pc: Pc)
    requires Files(m.disk, m.writer, m.trace.lines, m.trace.begins)
    requires (m.writer.pc.Closed? && pc.Idle?) || (m.writer.pc.Creating? && pc == Writing(m.writer.pc.line, 0))
    requires var later := WithNewActive(m, pc);
             forall i :: 0 <= i < |later.disk.inodes| ==>
               Holds(later.disk.inodes[i], later.writer, m.trace.lines, later.trace.begins, i)
    ensures var later := WithNewActive(m, pc);
            Files(later.disk, later.writer, later.trace.lines, later.trace.begins)
  {
    hide Holds, Text;
  }

  lemma NewActiveHolds(m: Machine, pc: Pc, i: nat)
    requires Files(m.disk, m.writer, m.trace.lines, m.trace.begins)
    requires (m.writer.pc.Closed? && pc.Idle?) || (m.writer.pc.Creating? && pc == Writing(m.writer.pc.line, 0))
    requires i < |WithNewActive(m, pc).disk.inodes|
    ensures var later := WithNewActive(m, pc);
            Holds(later.disk.inodes[i], later.writer, m.trace.lines, later.trace.begins, i)
  {
    var t, later := m.trace, WithNewActive(m, pc);
    var begins := later.trace.begins;
    if i < |m.disk.inodes| {
      assert Holds(m.disk.inodes[i], m.writer, t.lines, t.begins, i);
      assert LinesOf(t.lines, begins, i) == LinesOf(t.lines, t.begins, i);
      assert Tail(m.writer, i) == "";
      assert Tail(later.writer, i) == "";
      hide Text, PlainLines, NoLf;
    } else {
      assert LinesOf(t.lines, begins, i) == [];
      assert Tail(later.writer, i) == "" && Text([]) + "" == "";
      hide PlainLines, NoLf, Ascending;
    }
  }

  lemma BeginKeepsFiles(cfg: Config, m: Machine, line: string)
    requires Files(m.disk, m.writer, m.trace.lines, m.trace.begins)
    ensures var later := BeginStep(cfg, m, line);
            Files(later.disk, later.writer, later.trace.lines, later.trace.begins)
  {
    var later := BeginStep(cfg, m, line);
    if later != m {
      assert forall i :: 0 <= i < |m.disk.inodes| ==> Holds(m.disk.inodes[i], m.writer, m.trace.lines, m.trace.begins, i);
    }
  }

  /** Before a rotation takes the name away, the file holds a line. */
  lemma RotatedFileIsNotEmpty(m: Machine)
    requires Files(m.disk, m.writer, m.trace.lines, m.trace.begins) && m.writer.pc.Shifting?
    ensures m.trace.begins[|m.trace.begins| - 1] < |m.trace.lines|
  {
    var last := m.writer.file;
    assert Holds(m.disk.inodes[last], m.writer, m.trace.lines, m.trace.begins, last);
    assert Tail(m.writer, last) == "" && Text([]) == "";
    assert LinesOf(m.trace.lines, m.trace.begins, last) != [];
  }

  lemma AdvanceKeepsFiles(cfg: Config, m: Machine)
    requires Files(m.disk, m.writer, m.trace.lines, m.trace.begins)
    ensures var later := AdvanceStep(cfg, m);
            Files(later.disk, later.writer, later.trace.lines, later.trace.begins)
  {
    var later := AdvanceStep(cfg, m);
    if m.writer.pc.Creating? {
      NewActiveKeepsFiles(m, Writing(m.writer.pc.line, 0));
    } else if later != m {
      forall i | 0 <= i < |m.disk.inodes|
        ensures Holds(m.disk.inodes[i], later.writer, m.trace.lines, m.trace.begins, i)
      {
        assert Holds(m.disk.inodes[i], m.writer, m.trace.lines, m.trace.begins, i);
      }
      if m.writer.pc.Shifting? {
        RotatedFileIsNotEmpty(m);
      }
    }
  }

  function AfterPiece(w: Writer, k: nat): Writer
    requires w.pc.Writing?
  {
    if w.pc.done + k <= |w.pc.line| then w.(pc := Writing(w.pc.line, w.pc.done + k))
    else w.(pc := Idle, size := w.size + |w.pc.line| + 1)
  }

  lemma PieceHolds(content: string, w: Writer, lines: seq<string>, begins: seq<nat>, k: nat)
    requires w.pc.Writing? && w.pc.done + k <= |w.pc.line| + 1 && w.pc.done <= |w.pc.line|
    requires w.file == |begins| - 1 && Holds(content, w, lines, begins, w.file)
    ensures var lines' := if w.pc.done + k <= |w.pc.line| then lines else lines + [w.pc.line];
            Holds(content + (w.pc.line + LF)[w.pc.done..w.pc.done + k], AfterPiece(w, k), lines', begins, w.file)
  {
    var before := LinesOf(lines, begins, w.file);
    hide Text;
    assert Tail(w, w.file) == w.pc.line[..w.pc.done];
    PieceText(content, before, w.pc.line, w.pc.done, k);
    if w.pc.done + k > |w.pc.line| {
      assert LinesOf(lines + [w.pc.line], begins, w.file) == before + [w.pc.line];
      assert Text(before + [w.pc.line]) + "" == Text(before + [w.pc.line]);
    }
  }

  lemma PieceText(content: string, before: seq<string>, line: string, done: nat, k: nat)
    requires done <= |line| && done + k <= |line| + 1 && content == Text(before) + line[..done]
    ensures var later := content + (line + LF)[done..done + k];
            later == if done + k <= |line| then Text(before) + line[..done + k] else Text(before + [line])
  {
    hide Text;
    PieceOfLine(line, done, k);
    TextOfOneMore(before, line);
    var piece := (line + LF)[done..done + k];
    assert Text(before) + line[..done] + piece == Text(before) + (line[..done] + piece);
  }

  lemma PieceOfLine(line: string, done: nat, k: nat)
    requires done <= |line| && done + k <= |line| + 1
    ensures line[..done] + (line + LF)[done..done + k] == (line + LF)[..done + k]
    ensures done + k <= |line| ==> (line + LF)[..done + k] == line[..done + k]
    ensures done + k > |line| ==> (line + LF)[..done + k] == line + LF
  {
  }

  lemma WriteKeepsFiles(m: Machine, k: nat)
    requires Files(m.disk, m.writer, m.trace.lines, m.trace.begins)
    ensures var later := WriteStep(m, k);
            Files(later.disk, later.writer, later.trace.lines, later.trace.begins)
  {
    var later := WriteStep(m, k);
    if later != m {
      var t, w := m.trace, m.writer;
      forall i | 0 <= i < |m.disk.inodes|
        ensures Holds(later.disk.inodes[i], later.writer, later.trace.lines, t.begins, i)
      {
        assert Holds(m.disk.inodes[i], w, t.lines, t.begins, i);
        if i < w.file {
          OlderFileHolds(m.disk.inodes[i], w, later.writer, t.lines, later.trace.lines, t.begins, i);
        } else {
          PieceHolds(m.disk.inodes[i], w, t.lines, t.begins, k);
        }
      }
      hide Holds, Text;
    }
  }

  /** A file before the one being written holds what it held. */
  lemma OlderFileHolds(content: string, w: Writer, w': Writer, lines: seq<string>, lines': seq<string>, begins: seq<nat>, i: nat)
    requires i < w.file && w.file == |begins| - 1 && w'.file == w.file && lines <= lines'
    requires Holds(content, w, lines, begins, i) && begins[|begins| - 1] <= |lines|
    ensures Holds(content, w', lines', begins, i)
  {
    hide Text;
    assert LinesOf(lines', begins, i) == LinesOf(lines, begins, i);
  }

  // ---------------------------------------------------------------- the reader during them

  /** Files only grow, and lines and files are only added at the end. */
  ghost predicate Grown(inodes: seq<string>, lines: seq<string>, begins: seq<nat>,
                        inodes': seq<string>, lines': seq<string>, begins': seq<nat>)
  {
    && |inodes| <= |inodes'| && (forall i :: 0 <= i < |inodes| ==> inodes[i] <= inodes'[i])
    && lines <= lines'
    && (begins' == begins || (begins' == begins + [|lines|] && lines' == lines))
  }

  lemma GrownKeepsReader(inodes: seq<string>, absent: bool, lines: seq<string>, begins: seq<nat>,
                         inodes': seq<string>, absent': bool, lines': seq<string>, begins': seq<nat>,
                         r: Reader, at: nat, next: nat)
    requires Ascending(lines, begins) && Ascending(lines', begins')
    requires ReaderSound(inodes, absent, lines, begins, r, at, next)
    requires Grown(inodes, lines, begins, inodes', lines', begins')
    requires absent && !absent' ==> |begins'| > |begins|
    requires absent ==> lines' == lines
    ensures ReaderSound(inodes', absent', lines', begins', r, at, next)
  {
    if r.file.Some? {
      var pos := r.file.value.pos;
      assert inodes'[at][..pos] == inodes[at][..pos];
      assert lines'[BeginOf(lines, begins, at)..next] == lines[BeginOf(lines, begins, at)..next];
      assert BeginOf(lines', begins', at + 1) >= BeginOf(lines, begins, at + 1);
    }
  }

  lemma WriterStepKeepsFiles(cfg: Config, m: Machine, c: Choice)
    requires Files(m.disk, m.writer, m.trace.lines, m.trace.begins) && !c.Read? && !c.Reopen?
    ensures var later := Step(cfg, m, c);
            Files(later.disk, later.writer, later.trace.lines, later.trace.begins)
  {
    match c
    case OpenLog => if m.writer.pc.Closed? { NewActiveKeepsFiles(m, Idle); }
    case Begin(line) => BeginKeepsFiles(cfg, m, line);
    case Advance => AdvanceKeepsFiles(cfg, m);
    case Write(k) => WriteKeepsFiles(m, k);
  }

  lemma WriterStepGrows(cfg: Config, m: Machine, c: Choice)
    requires !c.Read? && !c.Reopen?
    ensures var later := Step(cfg, m, c);
            && Grown(m.disk.inodes, m.trace.lines, m.trace.begins, later.disk.inodes, later.trace.lines, later.trace.begins)
            && later.reader == m.reader && later.out == m.out
            && later.trace == m.trace.(lines := later.trace.lines, begins := later.trace.begins)
  {
  }

  lemma WriterStepEndsAbsence(cfg: Config, m: Machine, c: Choice)
    requires !c.Read? && !c.Reopen? && Absent(m.disk, m.writer)
    ensures var later := Step(cfg, m, c);
            && later.trace.lines == m.trace.lines
            && (!Absent(later.disk, later.writer) ==> |later.trace.begins| > |m.trace.begins|)
  {
  }

  lemma WriterStepKeeps(cfg: Config, m: Machine, c: Choice)
    requires Inv(cfg, m) && !c.Read? && !c.Reopen?
    ensures Inv(cfg, Step(cfg, m, c))
  {
    var t, later := m.trace, Step(cfg, m, c);
    WriterStepKeepsFiles(cfg, m, c);
    WriterStepGrows(cfg, m, c);
    if Absent(m.disk, m.writer) {
      WriterStepEndsAbsence(cfg, m, c);
    }
    GrownKeepsReader(m.disk.inodes, Absent(m.disk, m.writer), t.lines, t.begins,
                     later.disk.inodes, Absent(later.disk, later.writer), later.trace.lines, later.trace.begins,
                     m.reader, t.at, t.next);
  }

  // ---------------------------------------------------------------- the reader's steps

  lemma Sliced(content: string, read: string, more: string, partial: string, pos: nat, k: nat)
    requires pos + k <= |content| && content == read + more && content[..pos] == read + partial
    ensures partial + content[pos..pos + k] <= more
    ensures content[..pos + k] == read + (partial + content[pos..pos + k])
  {
    assert content[..pos + k] == content[..pos] + content[pos..pos + k];
    assert content[|read|..] == more;
    assert content[..pos + k][|read|..] == content[|read|..][..pos + k - |read|];
  }

  lemma Associates(a: string, b: string, c: string)
    ensures (a + b) + c == a + (b + c)
  {
  }

  lemma TextSplits(a: seq<string>, b: seq<string>, tail: string)
    ensures Text(a + b) + tail == Text(a) + (Text(b) + tail)
  {
    TextAppends(a, b);
    Associates(Text(a), Text(b), tail);
  }

  lemma ChunkOfPartial(partial: string, chunk: string)
    requires NoLf(partial) && IsChunk(chunk) && EndsInLf(chunk)
    ensures IsChunk(partial + chunk) && EndsInLf(partial + chunk)
  {
    assert (partial + chunk)[..|partial + chunk| - 1] == partial + chunk[..|chunk| - 1];
  }

  /** A completed chunk is the next whole line of the text, and never the torn one. */
  lemma ChunkIsTheNextLine(content: string, read: seq<string>, rest: seq<string>, tail: string, partial: string,
                           pos: nat, k: nat)
    requires PlainLines(rest) && NoLf(tail) && NoLf(partial)
    requires content == Text(read + rest) + tail && pos + k <= |content| && content[..pos] == Text(read) + partial
    requires IsChunk(content[pos..pos + k]) && EndsInLf(content[pos..pos + k])
    ensures rest != [] && partial + content[pos..pos + k] == rest[0] + LF
    ensures content[..pos + k] == Text(read + [rest[0]])
  {
    TextSplits(read, rest, tail);
    Sliced(content, Text(read), Text(rest) + tail, partial, pos, k);
    ChunkOfPartial(partial, content[pos..pos + k]);
    FirstLine(rest, tail, partial + content[pos..pos + k]);
    TextOfOneMore(read, rest[0]);
  }

  lemma PartIsKept(content: string, read: string, more: string, partial: string, pos: nat, k: nat)
    requires pos + k <= |content| && content == read + more && content[..pos] == read + partial && NoLf(partial)
    requires IsChunk(content[pos..pos + k]) && !EndsInLf(content[pos..pos + k])
    ensures content[..pos + k] == read + (partial + content[pos..pos + k]) && NoLf(partial + content[pos..pos + k])
  {
    var chunk := content[pos..pos + k];
    Sliced(content, read, more, partial, pos, k);
    assert chunk == chunk[..|chunk| - 1] + [chunk[|chunk| - 1]];
  }

  lemma CompletedChunk(content: string, tail: string, lines: seq<string>, begin: nat, next: nat, end: nat, r: Reader, k: nat)
    requires begin <= next <= end <= |lines| && PlainLines(lines) && NoLf(tail) && NoLf(r.partial)
    requires content == Text(lines[begin..end]) + tail && r.file.Some? && r.file.value.pos + k <= |content|
    requires content[..r.file.value.pos] == Text(lines[begin..next]) + r.partial
    requires IsChunk(content[r.file.value.pos..r.file.value.pos + k])
    requires EndsInLf(content[r.file.value.pos..r.file.value.pos + k])
    ensures next < end && r.partial + content[r.file.value.pos..r.file.value.pos + k] == lines[next] + LF
    ensures content[..r.file.value.pos + k] == Text(lines[begin..next + 1]) + ""
  {
    hide *;
    var chunk := content[r.file.value.pos..r.file.value.pos + k];
    PlainPart(lines, next, end);
    assert lines[begin..next] + lines[next..end] == lines[begin..end];
    ChunkIsTheNextLine(content, lines[begin..next], lines[next..end], tail, r.partial, r.file.value.pos, k);
    assert lines[begin..next] + [lines[next]] == lines[begin..next + 1];
    assert Text(lines[begin..next + 1]) + "" == Text(lines[begin..next + 1]);
  }

  lemma PlainPart(lines: seq<string>, i: nat, j: nat)
    requires PlainLines(lines) && i <= j <= |lines|
    ensures PlainLines(lines[i..j])
  {
    hide NoLf;
  }

  lemma KeptChunk(content: string, tail: string, lines: seq<string>, begin: nat, next: nat, end: nat, r: Reader, k: nat)
    requires begin <= next <= end <= |lines| && NoLf(r.partial)
    requires content == Text(lines[begin..end]) + tail && r.file.Some? && r.file.value.pos + k <= |content|
    requires content[..r.file.value.pos] == Text(lines[begin..next]) + r.partial
    requires IsChunk(content[r.file.value.pos..r.file.value.pos + k])
    requires !EndsInLf(content[r.file.value.pos..r.file.value.pos + k])
    ensures NoLf(r.partial + content[r.file.value.pos..r.file.value.pos + k])
    ensures content[..r.file.value.pos + k]
            == Text(lines[begin..next]) + (r.partial + content[r.file.value.pos..r.file.value.pos + k])
  {
    assert lines[begin..next] + lines[next..end] == lines[begin..end];
    TextSplits(lines[begin..next], lines[next..end], tail);
    PartIsKept(content, Text(lines[begin..next]), Text(lines[next..end]) + tail, r.partial, r.file.value.pos, k);
  }

  /** What a read delivers is the next line, if it delivers anything. */
  lemma ReadKeepsReader(m: Machine, k: nat)
    requires Files(m.disk, m.writer, m.trace.lines, m.trace.begins) && CanRead(m, k)
    requires ReaderSound(m.disk.inodes, false, m.trace.lines, m.trace.begins, m.reader, m.trace.at, m.trace.next)
    ensures var t, later := m.trace, ReadStep(m, k);
            && ReaderSound(m.disk.inodes, false, t.lines, t.begins, later.reader, t.at, later.trace.next)
            && (later.trace == t ==> later.out == m.out)
            && (later.trace != t ==>
                  && t.next < |t.lines| && later.out == m.out + [t.lines[t.next] + LF]
                  && later.trace == t.(next := t.next + 1, taken := t.taken + [t.next]))
  {
    hide *;
    ReaderIsHere(m, k);
    ReadMoves(m, k);
    var t, r := m.trace, m.reader;
    var content, pos := m.disk.inodes[t.at], r.file.value.pos;
    var begin, end := BeginOf(t.lines, t.begins, t.at), BeginOf(t.lines, t.begins, t.at + 1);
    if EndsInLf(content[pos..pos + k]) {
      CompletedChunk(content, Tail(m.writer, t.at), t.lines, begin, t.next, end, r, k);
      ReaderMoved(m, k, r.(file := Some(Handle(t.at, pos + k)), partial := ""), t.next + 1);
    } else {
      KeptChunk(content, Tail(m.writer, t.at), t.lines, begin, t.next, end, r, k);
      ReaderMoved(m, k, r.(file := Some(Handle(t.at, pos + k)), partial := r.partial + content[pos..pos + k]), t.next);
    }
  }

  /** Where a reader that can read stands in the file it is on. */
  lemma ReaderIsHere(m: Machine, k: nat)
    requires Files(m.disk, m.writer, m.trace.lines, m.trace.begins) && CanRead(m, k)
    requires ReaderSound(m.disk.inodes, false, m.trace.lines, m.trace.begins, m.reader, m.trace.at, m.trace.next)
    ensures var (t, r) := (m.trace, m.reader);
            && r.file.Some? && r.file.value.inode == t.at < |m.disk.inodes| && t.at < |t.begins|
            && r.file.value.pos + k <= |m.disk.inodes[t.at]|
            && IsChunk(m.disk.inodes[t.at][r.file.value.pos..r.file.value.pos + k])
            && BeginOf(t.lines, t.begins, t.at) <= t.next <= BeginOf(t.lines, t.begins, t.at + 1) <= |t.lines|
            && m.disk.inodes[t.at][..r.file.value.pos]
               == Text(t.lines[BeginOf(t.lines, t.begins, t.at)..t.next]) + r.partial
            && m.disk.inodes[t.at] == Text(t.lines[BeginOf(t.lines, t.begins, t.at)..BeginOf(t.lines, t.begins, t.at + 1)])
                                      + Tail(m.writer, t.at)
            && NoLf("") && NoLf(r.partial) && PlainLines(t.lines) && NoLf(Tail(m.writer, t.at))
  {
    var t := m.trace;
    assert Holds(m.disk.inodes[t.at], m.writer, t.lines, t.begins, t.at);
    hide Text, IsChunk;
  }

  lemma ReadMoves(m: Machine, k: nat)
    requires CanRead(m, k)
    ensures var (t, h, later) := (m.trace, m.reader.file.value, ReadStep(m, k));
            var chunk := m.disk.inodes[h.inode][h.pos..h.pos + k];
            var moved := m.reader.(file := Some(Handle(h.inode, h.pos + k)));
            if EndsInLf(chunk) then
              later.reader == moved.(partial := "") && later.out == m.out + [m.reader.partial + chunk]
              && later.trace == t.(next := t.next + 1, taken := t.taken + [t.next])
            else later.reader == moved.(partial := m.reader.partial + chunk) && later.out == m.out && later.trace == t
  {
    hide IsChunk, EndsInLf;
  }

  lemma ReaderMoved(m: Machine, k: nat, r: Reader, next: nat)
    requires CanRead(m, k) && r.file == Some(Handle(m.trace.at, m.reader.file.value.pos + k)) && NoLf(r.partial)
    requires var (t, d) := (m.trace, m.disk.inodes);
             && t.at == m.reader.file.value.inode && t.at < |t.begins|
             && BeginOf(t.lines, t.begins, t.at) <= next <= BeginOf(t.lines, t.begins, t.at + 1) <= |t.lines|
             && d[t.at][..r.file.value.pos] == Text(t.lines[BeginOf(t.lines, t.begins, t.at)..next]) + r.partial
    ensures ReaderSound(m.disk.inodes, false, m.trace.lines, m.trace.begins, r, m.trace.at, next)
  {
    hide Text, NoLf, BeginOf;
  }

  lemma ReadKeeps(cfg: Config, m: Machine, k: nat)
    requires Inv(cfg, m)
    ensures Inv(cfg, ReadStep(m, k))
  {
    if CanRead(m, k) {
      ReaderIsOnFile(cfg, m);
      ReadKeepsReader(m, k);
      ReadTouchesReaderOnly(m, k);
      hide Files, ReaderSound, ReadStep, CanRead;
    }
  }

  lemma ReaderIsOnFile(cfg: Config, m: Machine)
    requires Inv(cfg, m) && m.reader.file.Some?
    ensures ReaderSound(m.disk.inodes, false, m.trace.lines, m.trace.begins, m.reader, m.trace.at, m.trace.next)
  {
    hide Files, Identified, Delivered, InOrder, Text, NoLf;
  }

  lemma ReadTouchesReaderOnly(m: Machine, k: nat)
    requires CanRead(m, k)
    ensures var later := ReadStep(m, k);
            && later.disk == m.disk && later.writer == m.writer && later.reader.identity == m.reader.identity
            && later.reader.file.Some? && later.reader.file.value.inode == m.reader.file.value.inode
            && (forall absent, at, next ::
                  ReaderSound(m.disk.inodes, false, m.trace.lines, m.trace.begins, later.reader, at, next) ==>
                  ReaderSound(m.disk.inodes, absent, m.trace.lines, m.trace.begins, later.reader, at, next))
  {
    ReadMoves(m, k);
    hide IsChunk, EndsInLf, Text, NoLf;
  }

  /** The last file begins no earlier than any line a reader waits for. */
  lemma ReopenKeeps(cfg: Config, m: Machine)
    requires Inv(cfg, m)
    ensures Inv(cfg, ReopenStep(cfg, m))
    ensures cfg.unix ==> m.trace.next <= ReopenStep(cfg, m).trace.next
  {
    var later := ReopenStep(cfg, m);
    if later != m {
      var t, inode := m.trace, m.disk.names[Active];
      assert t.lines[BeginOf(t.lines, t.begins, inode)..later.trace.next] == [];
      if cfg.unix {
        assert m.reader.file.Some? ==> m.reader.file.value.inode != inode;
        assert t.at <= inode && t.next <= BeginOf(t.lines, t.begins, inode);
      }
    }
  }

  lemma StepKeeps(cfg: Config, m: Machine, c: Choice)
    requires Inv(cfg, m)
    ensures Inv(cfg, Step(cfg, m, c))
  {
    match c
    case Read(k) => ReadKeeps(cfg, m, k);
    case Reopen => ReopenKeeps(cfg, m);
    case _ => WriterStepKeeps(cfg, m, c);
  }

  lemma InitialHolds(cfg: Config, m: Machine)
    requires Initial(cfg, m)
    ensures Inv(cfg, m)
  {
    var t := m.trace;
    if Active in m.disk.names {
      assert t.lines[t.next..t.next] == [];
    }
  }

  lemma {:induction false} RunKeeps(cfg: Config, m: Machine, choices: seq<Choice>)
    requires Inv(cfg, m)
    ensures Inv(cfg, Run(cfg, m, choices))
  {
    if choices != [] {
      var front := choices[..|choices| - 1];
      RunKeeps(cfg, m, front);
      StepKeeps(cfg, Run(cfg, m, front), choices[|choices| - 1]);
    }
  }
}
