/** The offered kit and its background verifications: requests decide from the
    cached verdict or start a verification; verifications overlap and finish in
    any order, while the file behind the configured path may change. */
module KitCache {
  import opened Wrappers

  type Path(==, !new)
  type Identity(==, !new)
  type Offer(==, !new)

  /** The file a verdict was reached on, `None` for no file, and the verdict. */
  datatype Verdicts = Verdicts(decided: Option<(Option<Identity>, Option<Offer>)>, verifying: Option<Identity>)

  predicate DecidedFor(v: Verdicts, identity: Option<Identity>) {
    v.decided.Some? && v.decided.value.0 == identity
  }

  /** A request: the cache after it, its answer, and whether it starts a verification. */
  function AfterRequest(v: Verdicts, identity: Option<Identity>): (Verdicts, Option<Offer>, bool) {
    if DecidedFor(v, identity) then (v, v.decided.value.1, false)
    else if identity.None? then (v.(decided := Some((None, None))), None, false)
    else if v.verifying != identity then (v.(verifying := identity), None, true)
    else (v, None, false)
  }

  /** The end of a verification begun for `identity`. */
  function AfterVerification(v: Verdicts, identity: Identity, offer: Option<Offer>): Verdicts {
    Verdicts(Some((Some(identity), offer)), if v.verifying == Some(identity) then None else v.verifying)
  }

  class Cache {
    var decided: Option<(Option<Identity>, Option<Offer>)>
    var verifying: Option<Identity>

    function View(): Verdicts
      reads this
    {
      Verdicts(decided, verifying)
    }

    constructor ()
      ensures View() == Verdicts(None, None)
    {
      decided, verifying := None, None;
    }

    method Request(identity: Option<Identity>) returns (offer: Option<Offer>, starts: bool)
      modifies this
      ensures (View(), offer, starts) == AfterRequest(old(View()), identity)
    {
      if decided.Some? && decided.value.0 == identity {
        return decided.value.1, false;
      }
      if identity.None? {
        decided := Some((None, None));
        return None, false;
      }
      starts := verifying != identity;
      if starts {
        verifying := identity;
      }
      offer := None;
    }

    method Verified(identity: Identity, offer: Option<Offer>)
      modifies this
      ensures View() == AfterVerification(old(View()), identity, offer)
    {
      if verifying == Some(identity) {
        verifying := None;
      }
      decided := Some((Some(identity), offer));
    }
  }

  // ---------------------------------------------------------------- requests and verifications together

  /** A verification of the path, begun for an identity; what the path named
      when it was read, once it was. */
  datatype Task = Task(path: Path, identity: Identity, read: Option<Option<Identity>>, finished: bool)

  /** `from` is the verification the present verdict came from. */
  datatype World = World(files: map<Path, Identity>, verdicts: Verdicts, tasks: seq<Task>, from: Option<nat>)

  datatype Choice =
    | Repoint(path: Path, identity: Option<Identity>)
    | Request(path: Path)
    | ReadFile(task: nat)
    | Finish(task: nat)

  /** What verification makes of a file; a file keeps its content while it keeps its identity. */
  type Reader = Identity -> Option<Offer>

  function Verdict(read: Option<Identity>, reader: Reader): Option<Offer> {
    if read.None? then None else reader(read.value)
  }

  function Named(files: map<Path, Identity>, path: Path): Option<Identity> {
    if path in files then Some(files[path]) else None
  }

  function Step(w: World, c: Choice, reader: Reader): World {
    match c
    case Repoint(path, identity) =>
      w.(files := if identity.Some? then w.files[path := identity.value] else w.files - {path})
    case Request(path) =>
      var identity := Named(w.files, path);
      var (later, _, starts) := AfterRequest(w.verdicts, identity);
      w.(verdicts := later,
         tasks := if starts then w.tasks + [Task(path, identity.value, None, false)] else w.tasks,
         from := if later.decided != w.verdicts.decided then None else w.from)
    case ReadFile(n) =>
      if n >= |w.tasks| || w.tasks[n].read.Some? then w
      else w.(tasks := w.tasks[n := w.tasks[n].(read := Some(Named(w.files, w.tasks[n].path)))])
    case Finish(n) =>
      if n >= |w.tasks| || w.tasks[n].read.None? || w.tasks[n].finished then w
      else
        var t := w.tasks[n];
        w.(verdicts := AfterVerification(w.verdicts, t.identity, Verdict(t.read.value, reader)),
           tasks := w.tasks[n := t.(finished := true)], from := Some(n))
  }

  const NOTHING := World(map[], Verdicts(None, None), [], None)

  function Run(choices: seq<Choice>, reader: Reader): World {
    if choices == [] then NOTHING else Step(Run(choices[..|choices| - 1], reader), choices[|choices| - 1], reader)
  }

  ghost predicate Running(tasks: seq<Task>, identity: Identity) {
    exists n :: 0 <= n < |tasks| && tasks[n].identity == identity && !tasks[n].finished
  }

  ghost predicate Inv(w: World, reader: Reader) {
    && (w.verdicts.verifying.Some? ==> Running(w.tasks, w.verdicts.verifying.value))
    && (forall n :: 0 <= n < |w.tasks| && w.tasks[n].finished ==> w.tasks[n].read.Some?)
    && match w.verdicts.decided
       case None => true
       case Some((None, offer)) => offer.None?
       case Some((Some(identity), offer)) =>
         && w.from.Some? && w.from.value < |w.tasks|
         && w.tasks[w.from.value].identity == identity && w.tasks[w.from.value].finished
         && offer == Verdict(w.tasks[w.from.value].read.value, reader)
  }

  lemma FinishKeepsOthers(tasks: seq<Task>, n: nat, identity: Identity)
    requires n < |tasks| && Running(tasks, identity) && tasks[n].identity != identity
    ensures Running(tasks[n := tasks[n].(finished := true)], identity)
  {
    var k :| 0 <= k < |tasks| && tasks[k].identity == identity && !tasks[k].finished;
    assert tasks[n := tasks[n].(finished := true)][k] == tasks[k];
  }

  lemma ReadKeepsRunning(tasks: seq<Task>, n: nat, read: Option<Option<Identity>>, identity: Identity)
    requires n < |tasks| && Running(tasks, identity)
    ensures Running(tasks[n := tasks[n].(read := read)], identity)
  {
    var k :| 0 <= k < |tasks| && tasks[k].identity == identity && !tasks[k].finished;
    var later := tasks[n := tasks[n].(read := read)];
    assert later[k].identity == identity && !later[k].finished;
  }

  lemma StartsRunning(tasks: seq<Task>, t: Task, identity: Identity)
    requires Running(tasks, identity) || (t.identity == identity && !t.finished)
    ensures Running(tasks + [t], identity)
  {
    if Running(tasks, identity) {
      var k :| 0 <= k < |tasks| && tasks[k].identity == identity && !tasks[k].finished;
      assert (tasks + [t])[k] == tasks[k];
    } else {
      assert (tasks + [t])[|tasks|] == t;
    }
  }

  lemma StepKeeps(w: World, c: Choice, reader: Reader)
    requires Inv(w, reader)
    ensures Inv(Step(w, c, reader), reader)
  {
    match c
    case Repoint(_, _) =>
    case Request(path) =>
      if AfterRequest(w.verdicts, Named(w.files, path)).2 {
        StartsRunning(w.tasks, Task(path, Named(w.files, path).value, None, false), Named(w.files, path).value);
      }
    case ReadFile(n) =>
      if n < |w.tasks| && w.verdicts.verifying.Some? {
        ReadKeepsRunning(w.tasks, n, Some(Named(w.files, w.tasks[n].path)), w.verdicts.verifying.value);
      }
    case Finish(n) =>
      if n < |w.tasks| && w.verdicts.verifying.Some? && w.tasks[n].identity != w.verdicts.verifying.value {
        FinishKeepsOthers(w.tasks, n, w.verdicts.verifying.value);
      }
  }

  lemma {:induction false} RunKeeps(choices: seq<Choice>, reader: Reader)
    ensures Inv(Run(choices, reader), reader)
  {
    if choices != [] {
      RunKeeps(choices[..|choices| - 1], reader);
      StepKeeps(Run(choices[..|choices| - 1], reader), choices[|choices| - 1], reader);
    }
  }

  // ---------------------------------------------------------------- whose verdict an answer is

  /** A request is answered with a kit only from a verification begun for the
      very file the path names now. */
  lemma OfferIsOfTheCurrentFile(choices: seq<Choice>, reader: Reader, path: Path)
    requires AfterRequest(Run(choices, reader).verdicts, Named(Run(choices, reader).files, path)).1.Some?
    ensures var w := Run(choices, reader);
            && path in w.files && w.from.Some? && w.from.value < |w.tasks|
            && w.tasks[w.from.value].identity == w.files[path] && w.tasks[w.from.value].finished
  {
    RunKeeps(choices, reader);
  }

  /** A path is not pointed elsewhere while a verification begun for what it
      names has yet to read it. */
  ghost predicate Undisturbed(w: World, c: Choice) {
    c.Repoint? ==>
      forall n :: 0 <= n < |w.tasks| && w.tasks[n].path == c.path && w.tasks[n].read.None? ==>
        c.identity == Some(w.tasks[n].identity)
  }

  ghost predicate AllUndisturbed(choices: seq<Choice>, reader: Reader) {
    forall i :: 0 <= i < |choices| ==> Undisturbed(Run(choices[..i], reader), choices[i])
  }

  /** A verification not yet done with reading finds its own file, and one that is done found it. */
  predicate ReadsItsOwn(files: map<Path, Identity>, t: Task) {
    if t.read.None? then Named(files, t.path) == Some(t.identity) else t.read.value == Some(t.identity)
  }

  ghost predicate AllReadTheirOwn(w: World) {
    forall n :: 0 <= n < |w.tasks| ==> ReadsItsOwn(w.files, w.tasks[n])
  }

  lemma StepReadsItsOwn(w: World, c: Choice, reader: Reader)
    requires AllReadTheirOwn(w) && Undisturbed(w, c)
    ensures AllReadTheirOwn(Step(w, c, reader))
  {
    var later := Step(w, c, reader);
    forall n | 0 <= n < |later.tasks|
      ensures ReadsItsOwn(later.files, later.tasks[n])
    {
      assert n < |w.tasks| ==> ReadsItsOwn(w.files, w.tasks[n]);
    }
  }

  lemma {:induction false} RunReadsItsOwn(choices: seq<Choice>, reader: Reader)
    requires AllUndisturbed(choices, reader)
    ensures AllReadTheirOwn(Run(choices, reader))
  {
    if choices != [] {
      var front := choices[..|choices| - 1];
      forall i | 0 <= i < |front|
        ensures Undisturbed(Run(front[..i], reader), front[i])
      {
        assert front[..i] == choices[..i];
      }
      RunReadsItsOwn(front, reader);
      StepReadsItsOwn(Run(front, reader), choices[|choices| - 1], reader);
    }
  }

  /** While paths are pointed elsewhere only when no verification has yet to
      read them, every answer with a verdict is the current file's own. */
  lemma UndisturbedAnswerIsItsOwn(choices: seq<Choice>, reader: Reader, path: Path)
    requires AllUndisturbed(choices, reader)
    requires path in Run(choices, reader).files
    requires DecidedFor(Run(choices, reader).verdicts, Some(Run(choices, reader).files[path]))
    ensures var w := Run(choices, reader);
            AfterRequest(w.verdicts, Named(w.files, path)) == (w.verdicts, reader(w.files[path]), false)
  {
    RunKeeps(choices, reader);
    RunReadsItsOwn(choices, reader);
    var w := Run(choices, reader);
    assert ReadsItsOwn(w.files, w.tasks[w.from.value]);
  }

  /** Step `i` of the run is verification `n` reading what its path names. */
  predicate ReadsAt(choices: seq<Choice>, reader: Reader, i: nat, n: nat) {
    && i < |choices| && choices[i] == ReadFile(n)
    && n < |Run(choices[..i], reader).tasks| && Run(choices[..i], reader).tasks[n].read.None?
  }

  /** What the path of verification `n` named before step `i`. */
  function SeenAt(choices: seq<Choice>, reader: Reader, i: nat, n: nat): Option<Identity>
    requires ReadsAt(choices, reader, i, n)
  {
    Named(Run(choices[..i], reader).files, Run(choices[..i], reader).tasks[n].path)
  }

  /** Every verification that has read did so at one step of the run. */
  lemma {:induction false} ReadWasSeen(choices: seq<Choice>, reader: Reader, n: nat) returns (i: nat)
    requires n < |Run(choices, reader).tasks| && Run(choices, reader).tasks[n].read.Some?
    ensures ReadsAt(choices, reader, i, n) && Run(choices, reader).tasks[n].read == Some(SeenAt(choices, reader, i, n))
  {
    var front, last := choices[..|choices| - 1], choices[|choices| - 1];
    var before := Run(front, reader);
    if n < |before.tasks| && before.tasks[n].read.Some? {
      i := ReadWasSeen(front, reader, n);
      assert front[..i] == choices[..i];
    } else {
      i := |front|;
    }
  }

  /** A reader that gives no two files, nor a file and none, the same verdict. */
  ghost predicate TellsApart(reader: Reader) {
    forall a: Option<Identity>, b: Option<Identity> :: Verdict(a, reader) == Verdict(b, reader) ==> a == b
  }

  /** In every run an answer with a verdict is what was read at one step; where
      files are told apart it is the current file's own exactly when the path
      verified still named that file at that step. */
  lemma AnswerIsItsOwnIffReadUndisturbed(choices: seq<Choice>, reader: Reader, path: Path) returns (i: nat, n: nat)
    requires path in Run(choices, reader).files
    requires DecidedFor(Run(choices, reader).verdicts, Some(Run(choices, reader).files[path]))
    ensures var w := Run(choices, reader);
            var answer := AfterRequest(w.verdicts, Named(w.files, path)).1;
            && ReadsAt(choices, reader, i, n) && w.from == Some(n)
            && answer == Verdict(SeenAt(choices, reader, i, n), reader)
            && (TellsApart(reader) ==>
                  (answer == reader(w.files[path]) <==> SeenAt(choices, reader, i, n) == Some(w.files[path])))
  {
    RunKeeps(choices, reader);
    var w := Run(choices, reader);
    n := w.from.value;
    i := ReadWasSeen(choices, reader, n);
    assert Verdict(Some(w.files[path]), reader) == reader(w.files[path]);
  }

  /** After a request a verdict stands on what the path names, be it no file, or
      a verification begun for it is running. */
  lemma UndecidedIsVerifying(choices: seq<Choice>, reader: Reader, path: Path)
    ensures var w := Step(Run(choices, reader), Request(path), reader);
            || DecidedFor(w.verdicts, Named(w.files, path))
            || (path in w.files && Running(w.tasks, w.files[path]))
  {
    RunKeeps(choices, reader);
    StepKeeps(Run(choices, reader), Request(path), reader);
  }

  function RunFrom(w: World, choices: seq<Choice>, reader: Reader): World {
    if choices == [] then w
    else Step(RunFrom(w, choices[..|choices| - 1], reader), choices[|choices| - 1], reader)
  }

  /** No verification of this file ends, and no other file is asked for. */
  predicate Awaits(w: World, c: Choice, identity: Identity) {
    && (c.Request? ==> Named(w.files, c.path) in {None, Some(identity)})
    && (c.Finish? && c.task < |w.tasks| ==> w.tasks[c.task].identity != identity)
  }

  lemma StillVerifying(w: World, c: Choice, reader: Reader, identity: Identity)
    requires w.verdicts.verifying == Some(identity) && Awaits(w, c, identity)
    ensures var later := Step(w, c, reader);
            later.verdicts.verifying == Some(identity) && |later.tasks| == |w.tasks|
  {
  }

  /** While a file's verification runs, no second one is begun for it, whatever
      other verifications end meanwhile. */
  lemma {:induction false} OneVerificationAtATime(w: World, choices: seq<Choice>, reader: Reader, identity: Identity)
    requires w.verdicts.verifying == Some(identity)
    requires forall i :: 0 <= i < |choices| ==> Awaits(RunFrom(w, choices[..i], reader), choices[i], identity)
    ensures var later := RunFrom(w, choices, reader);
            later.verdicts.verifying == Some(identity) && |later.tasks| == |w.tasks|
  {
    if choices != [] {
      var n := |choices| - 1;
      forall i | 0 <= i < n
        ensures Awaits(RunFrom(w, choices[..n][..i], reader), choices[..n][i], identity)
      {
        assert choices[..n][..i] == choices[..i];
      }
      OneVerificationAtATime(w, choices[..n], reader, identity);
      assert Awaits(RunFrom(w, choices[..n], reader), choices[n], identity);
      StillVerifying(RunFrom(w, choices[..n], reader), choices[n], reader, identity);
    }
  }

  /** With every verification finished and no verdict on the file the path
      names, the next request begins one, and once it has read the file and
      finished, requests are answered with that file's own verdict. */
  lemma QuietCacheConverges(choices: seq<Choice>, reader: Reader, path: Path)
    requires var w := Run(choices, reader);
             && path in w.files && !DecidedFor(w.verdicts, Some(w.files[path]))
             && forall n :: 0 <= n < |w.tasks| ==> w.tasks[n].finished
    ensures var w := Run(choices, reader);
            var n := |w.tasks|;
            var later := Step(Step(Step(w, Request(path), reader), ReadFile(n), reader), Finish(n), reader);
            AfterRequest(later.verdicts, Named(later.files, path)) == (later.verdicts, reader(w.files[path]), false)
  {
    RunKeeps(choices, reader);
    var w := Run(choices, reader);
    var n, i := |w.tasks|, w.files[path];
    var begun := Step(w, Request(path), reader);
    assert begun.tasks == w.tasks + [Task(path, i, None, false)];
    var seen := Step(begun, ReadFile(n), reader);
    assert seen.tasks[n] == Task(path, i, Some(Some(i)), false);
  }

  function RepointedRun(path: Path, a: Identity, b: Identity): (choices: seq<Choice>)
    ensures |choices| == 6 && choices[0] == Repoint(path, Some(a)) && choices[1] == Request(path)
    ensures choices[2] == Repoint(path, Some(b)) && choices[3] == ReadFile(0) && choices[4] == Finish(0)
    ensures choices[5] == Repoint(path, Some(a))
  {
    [Repoint(path, Some(a)), Request(path), Repoint(path, Some(b)), ReadFile(0), Finish(0), Repoint(path, Some(a))]
  }

  /** A path pointed elsewhere between the request and the read: the verdict of
      one file stands under the identity of another. */
  lemma RepointedVerdictIsAnothers(reader: Reader, path: Path, a: Identity, b: Identity)
    requires a != b && reader(a) != reader(b)
    ensures var w := Run(RepointedRun(path, a, b), reader);
            path in w.files && w.files[path] == a
            && AfterRequest(w.verdicts, Some(a)).1 == reader(b) && AfterRequest(w.verdicts, Some(a)).1 != reader(a)
  {
    var choices := RepointedRun(path, a, b);
    var w2 := World(map[path := a], Verdicts(None, Some(a)), [Task(path, a, None, false)], None);
    RequestBegins(reader, path, a);
    ReadAnother(reader, path, a, b);
    assert Run(choices[..0], reader) == NOTHING && choices[..6] == choices;
    hide Run, Step, RepointedRun;
    RunGoesOn(choices, reader, 0);
    RunGoesOn(choices, reader, 1);
    RunGoesOn(choices, reader, 2);
    RunGoesOn(choices, reader, 3);
    RunGoesOn(choices, reader, 4);
    RunGoesOn(choices, reader, 5);
  }

  lemma RequestBegins(reader: Reader, path: Path, a: Identity)
    ensures Step(Step(NOTHING, Repoint(path, Some(a)), reader), Request(path), reader)
            == World(map[path := a], Verdicts(None, Some(a)), [Task(path, a, None, false)], None)
  {
    assert Step(NOTHING, Repoint(path, Some(a)), reader) == World(map[path := a], Verdicts(None, None), [], None);
  }

  lemma ReadAnother(reader: Reader, path: Path, a: Identity, b: Identity)
    requires a != b
    ensures var w := World(map[path := a], Verdicts(None, Some(a)), [Task(path, a, None, false)], None);
            var read := Step(Step(w, Repoint(path, Some(b)), reader), ReadFile(0), reader);
            var back := Step(Step(read, Finish(0), reader), Repoint(path, Some(a)), reader);
            back.files == map[path := a] && back.verdicts == Verdicts(Some((Some(a), reader(b))), None)
  {
    var w := World(map[path := a], Verdicts(None, Some(a)), [Task(path, a, None, false)], None);
    var elsewhere := Step(w, Repoint(path, Some(b)), reader);
    assert elsewhere == w.(files := map[path := b]);
    var read := Step(elsewhere, ReadFile(0), reader);
    assert read == elsewhere.(tasks := [Task(path, a, Some(Some(b)), false)]);
  }

  lemma RunGoesOn(choices: seq<Choice>, reader: Reader, k: nat)
    requires k < |choices|
    ensures Run(choices[..k + 1], reader) == Step(Run(choices[..k], reader), choices[k], reader)
  {
    hide Step;
    assert choices[..k + 1][..k] == choices[..k];
  }
}
