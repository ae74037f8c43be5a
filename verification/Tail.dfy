/** The follower's loops: draining a file chunk by chunk, switching files, and
    picking the last matches for the history. */
module Tail {
  import opened Wrappers
  import opened LogFiles
  import opened Follower

  /** Up to and with the first LF, or all there is. */
  function NextChunk(s: string): (chunk: string)
    requires s != ""
    ensures IsChunk(chunk) && chunk <= s
    ensures !EndsInLf(chunk) ==> chunk == s
  {
    if s[0] == '\n' || |s| == 1 then s[..1]
    else
      var rest := NextChunk(s[1..]);
      assert ([s[0]] + rest)[..|rest|] == [s[0]] + rest[..|rest| - 1];
      [s[0]] + rest
  }

  predicate Readable(r: Reader, d: Disk) {
    r.file.Some? ==> r.file.value.inode < |d.inodes| && r.file.value.pos <= |d.inodes[r.file.value.inode]|
  }

  function Unread(r: Reader, d: Disk): string
    requires Readable(r, d)
  {
    if r.file.None? then "" else d.inodes[r.file.value.inode][r.file.value.pos..]
  }

  /** Chunk after chunk until the end of what is there: the reader it leaves. */
  function Drained(r: Reader, d: Disk): Reader
    requires Readable(r, d)
    decreases |Unread(r, d)|
  {
    if Unread(r, d) == "" then r else Drained(Take(r, NextChunk(Unread(r, d))).0, d)
  }

  /** The lines it completes. */
  function DrainedLines(r: Reader, d: Disk): seq<string>
    requires Readable(r, d)
    decreases |Unread(r, d)|
  {
    if Unread(r, d) == "" then []
    else
      var (taken, lines) := Take(r, NextChunk(Unread(r, d)));
      lines + DrainedLines(taken, d)
  }

  lemma DrainStep(r: Reader, d: Disk, so: seq<string>)
    requires Readable(r, d) && Unread(r, d) != ""
    ensures var (taken, lines) := Take(r, NextChunk(Unread(r, d)));
            && Readable(taken, d) && |Unread(taken, d)| < |Unread(r, d)|
            && Drained(taken, d) == Drained(r, d)
            && (so + lines) + DrainedLines(taken, d) == so + DrainedLines(r, d)
  {
    var (taken, lines) := Take(r, NextChunk(Unread(r, d)));
    assert (so + lines) + DrainedLines(taken, d) == so + (lines + DrainedLines(taken, d));
  }

  lemma DrainEnds(r: Reader, d: Disk)
    requires Readable(r, d) && Unread(r, d) == ""
    ensures Drained(r, d) == r && DrainedLines(r, d) == []
  {
  }

  predicate WholeLine(s: string) {
    IsChunk(s) && EndsInLf(s)
  }

  /** A drain reaches the end of the file it is on. */
  lemma {:induction false} DrainReachesTheEnd(r: Reader, d: Disk)
    requires Readable(r, d) && NoLf(r.partial)
    ensures var last := Drained(r, d);
            && Readable(last, d) && Unread(last, d) == "" && last.identity == r.identity
            && (r.file.Some? <==> last.file.Some?)
            && (r.file.Some? ==> last.file.value.inode == r.file.value.inode)
    ensures NoLf(Drained(r, d).partial)
    ensures forall i :: 0 <= i < |DrainedLines(r, d)| ==> WholeLine(DrainedLines(r, d)[i])
    decreases |Unread(r, d)|
  {
    if Unread(r, d) != "" {
      var chunk := NextChunk(Unread(r, d));
      ChunkJoins(r, chunk);
      DrainReachesTheEnd(Take(r, chunk).0, d);
    }
  }

  /** It splits the kept part and everything unread at the LFs, losing nothing:
      whole lines out, the unfinished rest kept. */
  lemma {:induction false} DrainSplitsAtLfs(r: Reader, d: Disk)
    requires Readable(r, d)
    ensures Flat(DrainedLines(r, d)) + Drained(r, d).partial == r.partial + Unread(r, d)
    decreases |Unread(r, d)|
  {
    hide *;
    if Unread(r, d) == "" {
      DrainEnds(r, d);
      NoLines();
      assert r.partial + "" == r.partial && "" + r.partial == r.partial;
    } else {
      TakenShape(r, d);
      var chunk := NextChunk(Unread(r, d));
      var (taken, out) := Take(r, chunk);
      DrainStep(r, d, []);
      DrainSplitsAtLfs(taken, d);
      assert ([] + out) + DrainedLines(taken, d) == out + DrainedLines(taken, d) && [] + DrainedLines(r, d) == DrainedLines(r, d);
      Regroup(out, DrainedLines(taken, d), Drained(r, d).partial, r.partial, chunk, Unread(taken, d), taken.partial);
    }
  }

  lemma NoLines()
    ensures Flat([]) == ""
  {
  }

  /** What taking the next chunk yields and what it leaves unread. */
  lemma TakenShape(r: Reader, d: Disk)
    requires Readable(r, d) && Unread(r, d) != ""
    ensures r.file.Some?
    ensures var chunk := NextChunk(Unread(r, d));
            var (taken, out) := Take(r, chunk);
            && Readable(taken, d) && Unread(r, d) == chunk + Unread(taken, d)
            && ((out == [] && taken.partial == r.partial + chunk) || (out == [r.partial + chunk] && taken.partial == ""))
  {
    hide EndsInLf, IsChunk, NextChunk, NoLf;
    var chunk, h := NextChunk(Unread(r, d)), r.file.value;
    assert d.inodes[h.inode][h.pos..] == chunk + d.inodes[h.inode][h.pos + |chunk|..];
  }

  lemma Regroup(out: seq<string>, more: seq<string>, last: string, partial: string, chunk: string, rest: string, kept: string)
    requires (out == [] && kept == partial + chunk) || (out == [partial + chunk] && kept == "")
    requires Flat(more) + last == kept + rest
    ensures Flat(out + more) + last == partial + (chunk + rest)
  {
    if out == [] {
      assert out + more == more;
      assert (partial + chunk) + rest == partial + (chunk + rest);
    } else {
      assert (out + more)[1..] == more && (out + more)[0] == partial + chunk;
      assert Flat(out + more) == (partial + chunk) + Flat(more);
      hide Flat;
      assert kept + rest == rest;
      assert ((partial + chunk) + Flat(more)) + last == (partial + chunk) + (Flat(more) + last);
      assert (partial + chunk) + rest == partial + (chunk + rest);
    }
  }

  lemma ChunkJoins(r: Reader, chunk: string)
    requires r.file.Some? && NoLf(r.partial) && IsChunk(chunk)
    ensures NoLf(Take(r, chunk).0.partial)
    ensures EndsInLf(chunk) ==> WholeLine(r.partial + chunk)
  {
    assert chunk == chunk[..|chunk| - 1] + [chunk[|chunk| - 1]];
    assert (r.partial + chunk)[..|r.partial + chunk| - 1] == r.partial + chunk[..|chunk| - 1];
  }

  lemma ChunkCanBeRead(m: Machine)
    requires Readable(m.reader, m.disk) && Unread(m.reader, m.disk) != ""
    ensures var chunk := NextChunk(Unread(m.reader, m.disk));
            var next := ReadStep(m, |chunk|);
            && next.reader == Take(m.reader, chunk).0 && next.out == m.out + Take(m.reader, chunk).1
            && next.disk == m.disk && next.writer == m.writer
  {
    var chunk, h := NextChunk(Unread(m.reader, m.disk)), m.reader.file.value;
    assert m.disk.inodes[h.inode][h.pos..h.pos + |chunk|] == chunk;
  }

  /** A drain is a run of reads of the machine with nothing in between. */
  lemma {:induction false} DrainIsReads(cfg: Config, m: Machine) returns (choices: seq<Choice>)
    requires Readable(m.reader, m.disk)
    ensures Run(cfg, m, choices).reader == Drained(m.reader, m.disk)
    ensures Run(cfg, m, choices).out == m.out + DrainedLines(m.reader, m.disk)
    ensures Run(cfg, m, choices).disk == m.disk && Run(cfg, m, choices).writer == m.writer
    ensures forall i :: 0 <= i < |choices| ==> choices[i].Read?
    decreases |Unread(m.reader, m.disk)|
  {
    if Unread(m.reader, m.disk) == "" {
      choices := [];
      assert m.out + [] == m.out;
    } else {
      hide *;
      var read := Read(|NextChunk(Unread(m.reader, m.disk))|);
      ChunkCanBeRead(m);
      DrainStep(m.reader, m.disk, m.out);
      var rest := DrainIsReads(cfg, ReadStep(m, read.k));
      choices := [read] + rest;
      RunFrom(cfg, m, read, rest);
      ReadIsAStep(cfg, m, read.k);
    }
  }

  lemma ReadIsAStep(cfg: Config, m: Machine, k: nat)
    ensures Step(cfg, m, Read(k)) == ReadStep(m, k)
  {
    hide ReadStep;
  }

  lemma {:induction false} RunFrom(cfg: Config, m: Machine, c: Choice, rest: seq<Choice>)
    ensures Run(cfg, m, [c] + rest) == Run(cfg, Step(cfg, m, c), rest)
  {
    var all := [c] + rest;
    if rest == [] {
      assert all[..0] == [] && Run(cfg, m, all[..0]) == m;
    } else {
      RunFrom(cfg, m, c, rest[..|rest| - 1]);
      assert all[..|all| - 1] == [c] + rest[..|rest| - 1];
    }
  }

  class LogReader {
    const unix: bool
    var file: Option<Handle>
    var identity: Option<Identity>
    var partial: string

    function View(): Reader
      reads this
    {
      Reader(file, identity, partial)
    }

    constructor Open(unix: bool, d: Disk)
      requires Sound(d)
      ensures View() == Opened(unix, d) && this.unix == unix
    {
      this.unix := unix;
      if Active in d.names {
        file := Some(Handle(d.names[Active], 0));
        identity := Some(IdentityOf(unix, d, d.names[Active]));
      } else {
        file, identity := None, None;
      }
      partial := "";
    }

    /** Every line completed since the last call. */
    method Drain(d: Disk) returns (out: seq<string>)
      requires Readable(View(), d)
      modifies this
      ensures View() == Drained(old(View()), d) && out == DrainedLines(old(View()), d)
    {
      hide Drained, DrainedLines, NextChunk, EndsInLf;
      out := [];
      ghost var start := View();
      if file.None? {
        DrainEnds(start, d);
        return;
      }
      while Unread(View(), d) != ""
        invariant Readable(View(), d) && file.Some?
        invariant Drained(View(), d) == Drained(start, d)
        invariant out + DrainedLines(View(), d) == DrainedLines(start, d)
        decreases |Unread(View(), d)|
      {
        ghost var before, so := View(), out;
        var chunk := NextChunk(Unread(View(), d));
        file := Some(Handle(file.value.inode, file.value.pos + |chunk|));
        if EndsInLf(chunk) {
          out := out + [partial + chunk];
          partial := "";
        } else {
          partial := partial + chunk;
        }
        DrainStep(before, d, so);
        assert View() == Take(before, chunk).0 && out == so + Take(before, chunk).1;
      }
      DrainEnds(View(), d);
    }

    method ReopenAfterRotation(d: Disk)
      requires Sound(d)
      modifies this
      ensures View() == AfterReopen(unix, old(View()), d)
    {
      if Active !in d.names {
        return;
      }
      var current := d.names[Active];
      var currentIdentity := Some(IdentityOf(unix, d, current));
      if currentIdentity != identity || Shrank(View(), d, current) {
        file := Some(Handle(current, 0));
        identity := currentIdentity;
        partial := "";
      }
    }
  }

  // ---------------------------------------------------------------- the history

  function Matches(lines: seq<string>, consider: string -> Option<string>): seq<string> {
    if lines == [] then []
    else
      var front := Matches(lines[..|lines| - 1], consider);
      match consider(lines[|lines| - 1])
      case None => front
      case Some(rendered) => front + [rendered]
  }

  function LastOf(matched: seq<string>, count: nat): seq<string> {
    if |matched| <= count then matched else matched[|matched| - count..]
  }

  /** The history is the last `count` matches, in order; none for zero. */
  method LastMatches(lines: seq<string>, count: nat, consider: string -> Option<string>) returns (matched: seq<string>)
    ensures matched == LastOf(Matches(lines, consider), count)
  {
    matched := [];
    if count == 0 {
      return;
    }
    for i := 0 to |lines|
      invariant matched == LastOf(Matches(lines[..i], consider), count)
    {
      assert lines[..i + 1][..i] == lines[..i];
      var rendered := consider(lines[i]);
      if rendered.Some? {
        if |matched| == count {
          matched := matched[1..];
        }
        matched := matched + [rendered.value];
      }
    }
    assert lines[..|lines|] == lines;
  }

  /** The newest: as many of the end as asked for, or all there are. */
  lemma LastOfIsTheEnd(matched: seq<string>, count: nat)
    ensures |LastOf(matched, count)| == if |matched| < count then |matched| else count
    ensures matched == matched[..|matched| - |LastOf(matched, count)|] + LastOf(matched, count)
  {
  }

  /** Each line is considered once, in its place. */
  lemma {:induction false} MatchesInOrder(first: seq<string>, second: seq<string>, consider: string -> Option<string>)
    ensures Matches(first + second, consider) == Matches(first, consider) + Matches(second, consider)
    ensures |second| == 1 ==>
              Matches(second, consider) == match consider(second[0]) case None => [] case Some(rendered) => [rendered]
    decreases |second|
  {
    if second == [] {
      assert first + second == first;
    } else {
      var n := |second| - 1;
      MatchesOneMore(second, consider);
      MatchesOneMore(first + second, consider);
      hide Matches;
      MatchesInOrder(first, second[..n], consider);
      assert (first + second)[..|first + second| - 1] == first + second[..n];
    }
  }

  lemma MatchesOneMore(lines: seq<string>, consider: string -> Option<string>)
    requires lines != []
    ensures Matches(lines, consider) ==
            Matches(lines[..|lines| - 1], consider)
            + match consider(lines[|lines| - 1]) case None => [] case Some(rendered) => [rendered]
    ensures |lines| == 1 ==> Matches(lines[..0], consider) == []
  {
  }
}
