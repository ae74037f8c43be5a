/** What an install followed by an uninstall gives back, and when. */
module SettingsTheorems {
  import opened Wrappers
  import opened Settings

  // ---------------------------------------------------------------- the command names the executable

  predicate Names(host: Host, exe: string, verb: string) {
    Contains(Command(host, exe, verb), exe)
  }

  lemma {:induction false} QuotedPlain(path: string)
    requires '\'' !in path
    ensures Quoted(path) == path
  {
    if path != [] {
      QuotedPlain(path[1..]);
    }
  }

  /** A path without a single quote is found in its own command; on Windows any path is. */
  lemma PlainPathIsNamed(host: Host, exe: string, verb: string)
    requires host.Windows? || '\'' !in exe
    ensures Names(host, exe, verb)
  {
    if host.Unix? {
      QuotedPlain(exe);
    }
    hide Quoted, Contains;
    var command := Command(host, exe, verb);
    assert command[1..1 + |exe|] == exe;
    FoundAt(command, exe, 1);
  }

  lemma FoundAt(s: string, part: string, i: nat)
    requires ContainsAt(s, part, i)
    ensures Contains(s, part)
  {
  }

  /** A quoted one may not be: the program then does not know its own entries. */
  lemma QuotedPathMayBeHidden()
    ensures !Names(Unix, "/a'b", "title-hook")
  {
    var command := Command(Unix, "/a'b", "title-hook");
    assert Quoted("/a'b") == "/a'\\''b" by {
      assert "/a'b"[1..] == "a'b" && "a'b"[1..] == "'b" && "'b"[1..] == "b" && "b"[1..] == "";
    }
    assert command == "'/a'\\''b' title-hook";
    forall i: nat | i <= |command|
      ensures !ContainsAt(command, "/a'b", i)
    {
      if i == 1 {
        assert command[i..i + 4][3] == '\\';
      } else if i + 4 <= |command| {
        assert command[i..i + 4][0] != '/';
      }
    }
  }

  // ---------------------------------------------------------------- foreign groups

  predicate NoneOursIn(groups: seq<Json>, exe: string) {
    forall i :: 0 <= i < |groups| ==> !GroupIsOurs(groups[i], exe)
  }

  /** The entries this executable would call its own. */
  predicate NoneOurs(m: map<string, Json>, exe: string) {
    && (STATUS in m ==> !IsOurs(m[STATUS], exe))
    && (HOOKS in m && m[HOOKS].Obj? && GroupsOf(m[HOOKS].members).Ok? ==> NoneOursIn(GroupsOf(m[HOOKS].members).value, exe))
  }

  lemma {:induction false} ForeignKeepsForeign(groups: seq<Json>, exe: string)
    ensures NoneOursIn(Foreign(groups, exe), exe)
    ensures |Foreign(groups, exe)| <= |groups|
    ensures Foreign(groups, exe) == groups <==> NoneOursIn(groups, exe)
    ensures |Foreign(groups, exe)| == |groups| <==> NoneOursIn(groups, exe)
  {
    if groups != [] {
      var front := groups[..|groups| - 1];
      ForeignKeepsForeign(front, exe);
      assert groups == front + [groups[|groups| - 1]];
      if NoneOursIn(groups, exe) {
        assert !GroupIsOurs(groups[|groups| - 1], exe);
        assert NoneOursIn(front, exe);
      }
    }
  }

  lemma ForeignOfOneMore(groups: seq<Json>, group: Json, exe: string)
    ensures Foreign(groups + [group], exe)
            == if GroupIsOurs(group, exe) then Foreign(groups, exe) else Foreign(groups, exe) + [group]
  {
    assert (groups + [group])[..|groups|] == groups;
  }

  lemma OursIffNamed(host: Host, exe: string)
    ensures IsOurs(StatusEntry(host, exe), exe) <==> Names(host, exe, "statusline")
    ensures GroupIsOurs(OurGroup(host, exe), exe) <==> Names(host, exe, "title-hook")
  {
    assert IsOurs(HookEntry(host, exe), exe) <==> Names(host, exe, "title-hook");
    assert OurGroup(host, exe).members[HOOKS].items[0] == HookEntry(host, exe);
  }

  // ---------------------------------------------------------------- install, then uninstall

  /** The shapes an uninstall does not simplify further: no `hooks`, or other
      events beside no prompt event, or prompt groups in a non-empty array. */
  predicate Reversible(m: map<string, Json>) {
    HOOKS !in m
    || (m[HOOKS].Obj?
        && var hooks := m[HOOKS].members;
           if EVENT in hooks then hooks[EVENT].Arr? && hooks[EVENT].items != [] else hooks != map[])
  }

  predicate Recognised(m: map<string, Json>, host: Host, exe: string) {
    Names(host, exe, "title-hook") && (STATUS !in m ==> Names(host, exe, "statusline"))
  }

  function WithoutStatus(m: map<string, Json>, exe: string): map<string, Json> {
    if STATUS in m && IsOurs(m[STATUS], exe) then m - {STATUS} else m
  }

  function HooksOf(m: map<string, Json>): map<string, Json> {
    if HOOKS in m && m[HOOKS].Obj? then m[HOOKS].members else map[]
  }

  function HooksInstalled(hooks: map<string, Json>, host: Host, exe: string): map<string, Json>
    requires GroupsOf(hooks).Ok?
  {
    hooks[EVENT := Arr(Foreign(GroupsOf(hooks).value, exe) + [OurGroup(host, exe)])]
  }

  /** The two halves do not meet: the status line and the hooks come and go
      each on their own. */
  lemma InstalledThenUninstalled(m: map<string, Json>, host: Host, exe: string)
    requires Installed(m, host, exe).Ok?
    ensures GroupsOf(HooksOf(m)).Ok?
    ensures HooksUninstalled(HooksInstalled(HooksOf(m), host, exe), exe).Ok?
    ensures var kept := WithoutStatus(StatusInstalled(m, host, exe), exe);
            var left := HooksUninstalled(HooksInstalled(HooksOf(m), host, exe), exe).value;
            var back := Uninstalled(Installed(m, host, exe).value, exe);
            back.Ok? && back.value == if left == map[] then kept - {HOOKS} else kept[HOOKS := Obj(left)]
  {
    var s1, h1 := StatusInstalled(m, host, exe), HooksInstalled(HooksOf(m), host, exe);
    assert Installed(m, host, exe).value == s1[HOOKS := Obj(h1)];
    UninstalledByHalves(s1, h1, exe);
  }

  lemma UninstalledByHalves(s: map<string, Json>, hooks: map<string, Json>, exe: string)
    requires HooksUninstalled(hooks, exe).Ok?
    ensures var kept, left := WithoutStatus(s, exe), HooksUninstalled(hooks, exe).value;
            var back := Uninstalled(s[HOOKS := Obj(hooks)], exe);
            back.Ok? && back.value == if left == map[] then kept - {HOOKS} else kept[HOOKS := Obj(left)]
  {
    var kept, left := WithoutStatus(s, exe), HooksUninstalled(hooks, exe).value;
    assert WithoutStatus(s[HOOKS := Obj(hooks)], exe) == kept[HOOKS := Obj(hooks)];
    assert kept[HOOKS := Obj(hooks)][HOOKS := Obj(left)] == kept[HOOKS := Obj(left)];
    assert kept[HOOKS := Obj(hooks)] - {HOOKS} == kept - {HOOKS};
  }

  /** Nothing of ours before: the settings come back exactly when both commands
      are recognised and the shape of `hooks` is one that survives. */
  lemma UninstallUndoesInstallIff(m: map<string, Json>, host: Host, exe: string)
    requires NoneOurs(m, exe) && Installed(m, host, exe).Ok?
    ensures var back := Uninstalled(Installed(m, host, exe).value, exe);
            && back.Ok?
            && (back.value == m <==> Recognised(m, host, exe) && Reversible(m))
  {
    InstalledThenUninstalled(m, host, exe);
    StatusComesBackIff(m, host, exe);
    HooksComeBackIff(HooksOf(m), host, exe);
    Recombined(m, WithoutStatus(StatusInstalled(m, host, exe), exe),
               HooksUninstalled(HooksInstalled(HooksOf(m), host, exe), exe).value);
    if HOOKS in m && EVENT !in HooksOf(m) {
      assert HooksOf(m) - {EVENT} == HooksOf(m);
    }
  }

  ghost predicate SameElsewhere(a: map<string, Json>, b: map<string, Json>, key: string) {
    forall other :: other != key ==> (other in a <==> other in b) && (other in b ==> a[other] == b[other])
  }

  lemma Recombined(m: map<string, Json>, kept: map<string, Json>, hooks: map<string, Json>)
    requires SameElsewhere(kept, m, STATUS)
    ensures (if hooks == map[] then kept - {HOOKS} else kept[HOOKS := Obj(hooks)]) == m <==>
            && kept == m
            && if HOOKS in m then hooks != map[] && m[HOOKS] == Obj(hooks) else hooks == map[]
  {
    var back := if hooks == map[] then kept - {HOOKS} else kept[HOOKS := Obj(hooks)];
    if back == m {
      assert STATUS in kept <==> STATUS in back;
      assert STATUS in kept ==> kept[STATUS] == back[STATUS];
      assert kept == m;
    }
  }

  lemma StatusComesBackIff(m: map<string, Json>, host: Host, exe: string)
    requires NoneOurs(m, exe)
    ensures var m1 := StatusInstalled(m, host, exe);
            && (WithoutStatus(m1, exe) == m <==> (STATUS !in m ==> Names(host, exe, "statusline")))
            && SameElsewhere(WithoutStatus(m1, exe), m, STATUS)
  {
    OursIffNamed(host, exe);
  }

  lemma HooksComeBackIff(hooks: map<string, Json>, host: Host, exe: string)
    requires GroupsOf(hooks).Ok? && NoneOursIn(GroupsOf(hooks).value, exe)
    ensures var back := HooksUninstalled(HooksInstalled(hooks, host, exe), exe);
            && back.Ok?
            && (back.value == hooks <==>
                  Names(host, exe, "title-hook") && (EVENT in hooks ==> hooks[EVENT].Arr? && hooks[EVENT].items != []))
            && (back.value == map[] <==>
                  Names(host, exe, "title-hook") && GroupsOf(hooks).value == [] && hooks - {EVENT} == map[])
  {
    HooksBack(hooks, host, exe);
    hide Names, HooksUninstalled, HooksInstalled, Foreign, OurGroup;
    var groups := GroupsOf(hooks).value;
    if Names(host, exe, "title-hook") {
      if groups == [] {
        assert hooks - {EVENT} == hooks <==> EVENT !in hooks;
      } else {
        assert EVENT in hooks;
        assert hooks[EVENT].Arr? ==> hooks[EVENT := Arr(groups)] == hooks;
      }
    } else {
      var back := hooks[EVENT := Arr(groups + [OurGroup(host, exe)])];
      assert EVENT in back && back[EVENT].items != groups;
    }
  }

  /** What is left of the hooks: the foreign groups, or with a command that is
      not recognised everything that was installed. */
  lemma HooksBack(hooks: map<string, Json>, host: Host, exe: string)
    requires GroupsOf(hooks).Ok? && NoneOursIn(GroupsOf(hooks).value, exe)
    ensures var groups := GroupsOf(hooks).value;
            HooksUninstalled(HooksInstalled(hooks, host, exe), exe) == Ok(
              if !Names(host, exe, "title-hook") then hooks[EVENT := Arr(groups + [OurGroup(host, exe)])]
              else if groups == [] then hooks - {EVENT}
              else hooks[EVENT := Arr(groups)])
  {
    var groups, ours := GroupsOf(hooks).value, OurGroup(host, exe);
    OursIffNamed(host, exe);
    ForeignKeepsForeign(groups, exe);
    ForeignOfOneMore(groups, ours, exe);
    ArrayUninstalled(hooks[EVENT := Arr(groups + [ours])], groups + [ours], exe);
    hide Names, HooksUninstalled, Foreign, GroupIsOurs, OurGroup, NoneOursIn, GroupsOf;
    assert hooks[EVENT := Arr(groups + [ours])] - {EVENT} == hooks - {EVENT};
    assert hooks[EVENT := Arr(groups + [ours])][EVENT := Arr(groups)] == hooks[EVENT := Arr(groups)];
  }

  lemma ArrayUninstalled(hooks: map<string, Json>, groups: seq<Json>, exe: string)
    requires EVENT in hooks && hooks[EVENT] == Arr(groups)
    ensures var kept := Foreign(groups, exe);
            HooksUninstalled(hooks, exe) == Ok(
              if |kept| == |groups| then hooks else if kept == [] then hooks - {EVENT} else hooks[EVENT := Arr(kept)])
  {
    hide Foreign;
  }

  // ---------------------------------------------------------------- what else an install keeps

  /** A second install plans nothing exactly when the hook's own command is recognised. */
  lemma SecondInstallPlansNothingIff(m: map<string, Json>, host: Host, exe: string)
    requires Installed(m, host, exe).Ok?
    ensures Installed(Installed(m, host, exe).value, host, exe).Ok?
    ensures Installed(Installed(m, host, exe).value, host, exe).value == Installed(m, host, exe).value <==>
            Names(host, exe, "title-hook")
  {
    var foreign := Foreign(GroupsOf(HooksOf(m)).value, exe);
    OursIffNamed(host, exe);
    ForeignKeepsForeign(GroupsOf(HooksOf(m)).value, exe);
    ForeignKeepsForeign(foreign, exe);
    ForeignOfOneMore(foreign, OurGroup(host, exe), exe);
    StatusSettles(m, host, exe);
    InstallTouchesOnlyItsEntries(m, host, exe);
    HooksSettleIff(Installed(m, host, exe).value, foreign, host, exe);
  }

  lemma StatusSettles(m: map<string, Json>, host: Host, exe: string)
    requires Installed(m, host, exe).Ok?
    ensures StatusInstalled(Installed(m, host, exe).value, host, exe) == Installed(m, host, exe).value
  {
    var m1 := Installed(m, host, exe).value;
    if IsOurs(m1[STATUS], exe) {
      var entry := m1[STATUS].members;
      assert entry["command" := Str(Command(host, exe, "statusline"))] == entry;
    }
  }

  lemma HooksSettleIff(m1: map<string, Json>, foreign: seq<Json>, host: Host, exe: string)
    requires HOOKS in m1 && m1[HOOKS].Obj? && StatusInstalled(m1, host, exe) == m1
    requires EVENT in m1[HOOKS].members && m1[HOOKS].members[EVENT] == Arr(foreign + [OurGroup(host, exe)])
    requires Foreign(foreign + [OurGroup(host, exe)], exe)
             == if Names(host, exe, "title-hook") then foreign else foreign + [OurGroup(host, exe)]
    ensures var again := Installed(m1, host, exe);
            again.Ok? && (again.value == m1 <==> Names(host, exe, "title-hook"))
  {
    var ours, hooks := OurGroup(host, exe), m1[HOOKS].members;
    var again := Installed(m1, host, exe).value;
    if Names(host, exe, "title-hook") {
      assert hooks[EVENT := Arr(foreign + [ours])] == hooks;
      assert m1[HOOKS := Obj(hooks)] == m1;
    } else {
      assert again[HOOKS].members[EVENT].items == (foreign + [ours]) + [ours];
      assert |again[HOOKS].members[EVENT].items| != |hooks[EVENT].items|;
    }
  }

  /** An install adds one group after the foreign ones, which keep their order,
      and touches no other key, no other event and no foreign status line. */
  lemma InstallTouchesOnlyItsEntries(m: map<string, Json>, host: Host, exe: string)
    requires Installed(m, host, exe).Ok?
    ensures var m1 := Installed(m, host, exe).value;
            && (forall key :: key != STATUS && key != HOOKS ==> (key in m1 <==> key in m) && (key in m ==> m1[key] == m[key]))
            && (STATUS in m && !IsOurs(m[STATUS], exe) ==> m1[STATUS] == m[STATUS])
            && (STATUS in m && IsOurs(m[STATUS], exe) ==> SameElsewhere(m1[STATUS].members, m[STATUS].members, "command"))
            && SameElsewhere(HooksOf(m1), HooksOf(m), EVENT)
            && GroupsOf(HooksOf(m1)) == Ok(Foreign(GroupsOf(HooksOf(m)).value, exe) + [OurGroup(host, exe)])
  {
  }

  /** An uninstall leaves nothing of ours behind, and a second one plans nothing. */
  lemma UninstallLeavesNothingOfOurs(m: map<string, Json>, exe: string)
    requires Uninstalled(m, exe).Ok?
    ensures NoneOurs(Uninstalled(m, exe).value, exe)
    ensures Uninstalled(Uninstalled(m, exe).value, exe) == Uninstalled(m, exe)
  {
    var kept := WithoutStatus(m, exe);
    assert WithoutStatus(kept, exe) == kept;
    if HOOKS in m && m[HOOKS].Obj? {
      var hooks, left := m[HOOKS].members, HooksUninstalled(m[HOOKS].members, exe).value;
      HooksUninstalledTwice(hooks, exe);
      if left == map[] {
        assert WithoutStatus(kept - {HOOKS}, exe) == kept - {HOOKS};
      } else {
        UninstalledByHalves(kept, left, exe);
      }
    }
  }

  lemma HooksUninstalledTwice(hooks: map<string, Json>, exe: string)
    requires HooksUninstalled(hooks, exe).Ok?
    ensures var left := HooksUninstalled(hooks, exe).value;
            && HooksUninstalled(left, exe) == Ok(left)
            && GroupsOf(left).Ok? && NoneOursIn(GroupsOf(left).value, exe)
  {
    if EVENT in hooks && hooks[EVENT].Arr? {
      var groups := hooks[EVENT].items;
      ForeignKeepsForeign(groups, exe);
      ForeignKeepsForeign(Foreign(groups, exe), exe);
    }
  }

  // ---------------------------------------------------------------- the file and the backup

  function Committed(f: Files, r: Result<Option<Plan>, Invalid>): Files {
    if r.Ok? && r.value.Some? then AfterCommit(f, r.value.value, Written, Written).0 else f
  }

  function AfterInstall(text: Text, host: Host, exe: string, f: Files): Files {
    Committed(f, InstallPlan(text, host, exe, f.file, f.backup))
  }

  /** The backup goes only after a plan was committed. */
  function AfterUninstall(text: Text, exe: string, f: Files): Files {
    var r := UninstallPlan(text, exe, f.file, f.backup);
    if r.Ok? && r.value.Some? then AfterRemoveBackup(Committed(f, r)) else f
  }

  /** With no backup before and nothing of ours in the file: install then
      uninstall gives back the same bytes, and no backup, exactly under the
      condition that gives back the same settings. */
  lemma BytesComeBackIff(text: Text, host: Host, exe: string, original: Bytes, m: map<string, Json>)
    requires Faithful(text) && text.parse(original) == Some(Obj(m))
    requires NoneOurs(m, exe) && Installed(m, host, exe).Ok?
    ensures var f := Files(Some(original), None);
            AfterUninstall(text, exe, AfterInstall(text, host, exe, f)) == f <==> Recognised(m, host, exe) && Reversible(m)
  {
    UninstallUndoesInstallIff(m, host, exe);
    InstallChanges(m, host, exe);
    InstallSavesTheOriginal(text, host, exe, original, m);
    UninstallRestoresIff(text, exe, original, m, Installed(m, host, exe).value);
  }

  lemma InstallSavesTheOriginal(text: Text, host: Host, exe: string, original: Bytes, m: map<string, Json>)
    requires text.parse(original) == Some(Obj(m)) && Installed(m, host, exe).Ok? && Installed(m, host, exe).value != m
    ensures AfterInstall(text, host, exe, Files(Some(original), None))
            == Files(Some(text.print_(Obj(Installed(m, host, exe).value))), Some(original))
  {
  }

  lemma UninstallRestoresIff(text: Text, exe: string, original: Bytes, m: map<string, Json>, m1: map<string, Json>)
    requires Faithful(text) && text.parse(original) == Some(Obj(m)) && m1 != m && Uninstalled(m1, exe).Ok?
    ensures AfterUninstall(text, exe, Files(Some(text.print_(Obj(m1))), Some(original))) == Files(Some(original), None) <==>
            Uninstalled(m1, exe).value == m
  {
    var back := Uninstalled(m1, exe).value;
    assert text.parse(text.print_(Obj(m1))) == Some(Obj(m1));
    assert text.parse(text.print_(Obj(back))) == Some(Obj(back));
  }

  lemma InstallChanges(m: map<string, Json>, host: Host, exe: string)
    requires NoneOurs(m, exe) && Installed(m, host, exe).Ok?
    ensures Installed(m, host, exe).value != m
  {
    var m1 := Installed(m, host, exe).value;
    ForeignKeepsForeign(GroupsOf(HooksOf(m)).value, exe);
    if HOOKS in m && EVENT in m[HOOKS].members {
      assert |m1[HOOKS].members[EVENT].items| == |GroupsOf(m[HOOKS].members).value| + 1;
    }
  }

  /** A file that was not there is left behind as an empty object. */
  lemma MissingFileEndsEmpty(text: Text, host: Host, exe: string)
    requires Faithful(text) && Names(host, exe, "statusline") && Names(host, exe, "title-hook")
    ensures AfterUninstall(text, exe, AfterInstall(text, host, exe, Files(None, None)))
            == Files(Some(text.print_(Obj(map[]))), None)
  {
    var m1 := Installed(map[], host, exe).value;
    UninstallUndoesInstallIff(map[], host, exe);
    assert text.parse(text.print_(Obj(m1))) == Some(Obj(m1));
  }

  /** An operation with the outcomes of its two writes. */
  datatype Act =
    | Install(host: Host, exe: string, first: WriteOutcome, second: WriteOutcome)
    | Uninstall(exe: string, second: WriteOutcome)

  function AfterAct(text: Text, f: Files, act: Act): Files {
    match act
    case Install(host, exe, first, second) => (
      match InstallPlan(text, host, exe, f.file, f.backup)
      case Ok(Some(plan)) => AfterCommit(f, plan, first, second).0
      case _ => f)
    case Uninstall(exe, second) => (
      match UninstallPlan(text, exe, f.file, f.backup)
      case Ok(Some(plan)) =>
        var (after, ok) := AfterCommit(f, plan, Written, second);
        if ok then AfterRemoveBackup(after) else after
      case _ => f)
  }

  function AfterActs(text: Text, f: Files, acts: seq<Act>): Files {
    if acts == [] then f else AfterAct(text, AfterActs(text, f, acts[..|acts| - 1]), acts[|acts| - 1])
  }

  ghost predicate BySelf(acts: seq<Act>, exe: string) {
    forall i :: 0 <= i < |acts| ==> acts[i].exe == exe
  }

  predicate PlansUninstall(text: Text, exe: string, original: Bytes) {
    var r := UninstallPlan(text, exe, Some(original), None);
    r.Ok? && r.value.Some?
  }

  /** When an uninstall finds nothing to do in the original file, then over any
      run of installs and uninstalls, with any write failing before or after its
      rename, the original bytes are in the backup, or in the file with no
      backup beside it. */
  lemma {:induction false} OriginalIsNeverLost(text: Text, exe: string, original: Bytes, acts: seq<Act>)
    requires BySelf(acts, exe) && !PlansUninstall(text, exe, original)
    ensures var f := AfterActs(text, Files(Some(original), None), acts);
            f.backup == Some(original) || f == Files(Some(original), None)
  {
    if acts != [] {
      OriginalIsNeverLost(text, exe, original, acts[..|acts| - 1]);
      OriginalSurvivesAct(text, exe, original, AfterActs(text, Files(Some(original), None), acts[..|acts| - 1]), acts[|acts| - 1]);
    }
  }

  lemma OriginalSurvivesAct(text: Text, exe: string, original: Bytes, f: Files, act: Act)
    requires act.exe == exe && !PlansUninstall(text, exe, original)
    requires f.backup == Some(original) || f == Files(Some(original), None)
    ensures var after := AfterAct(text, f, act); after.backup == Some(original) || after == Files(Some(original), None)
  {
  }

  /** Otherwise one uninstall rewrites the file and keeps no copy: it never backs up. */
  lemma UninstallWithoutInstallKeepsNoCopy(text: Text, exe: string, original: Bytes)
    requires Faithful(text) && PlansUninstall(text, exe, original)
    ensures var f := AfterActs(text, Files(Some(original), None), [Uninstall(exe, Written)]);
            f.backup.None? && f.file != Some(original)
  {
    var f := Files(Some(original), None);
    var acts := [Uninstall(exe, Written)];
    assert acts[..0] == [] && AfterActs(text, f, acts[..0]) == f;
    var back := Uninstalled(Read(text, original).value, exe).value;
    assert text.parse(text.print_(Obj(back))) == Some(Obj(back));
  }

  /** The prompt event holds what groups cannot be. */
  predicate MalformedEvent(m: map<string, Json>) {
    var hooks := HooksOf(m);
    EVENT in hooks && !hooks[EVENT].Arr? && !hooks[EVENT].Obj? && !hooks[EVENT].Null?
  }

  /** What an uninstall takes from a file: a status line of ours, a `hooks`
      that is empty, a prompt event that is a group of ours or lists one. */
  predicate TakesFrom(m: map<string, Json>, exe: string) {
    || (STATUS in m && IsOurs(m[STATUS], exe))
    || (HOOKS in m && m[HOOKS].Obj? &&
        var hooks := m[HOOKS].members;
        || hooks == map[]
        || (EVENT in hooks && hooks[EVENT].Obj? && GroupIsOurs(hooks[EVENT], exe))
        || (EVENT in hooks && hooks[EVENT].Arr? && !NoneOursIn(hooks[EVENT].items, exe)))
  }

  /** Whether anything of the hooks goes, and what is left is never the same then. */
  lemma HooksChangeIff(hooks: map<string, Json>, exe: string)
    requires HooksUninstalled(hooks, exe).Ok?
    ensures HooksUninstalled(hooks, exe).value == hooks <==>
            && (EVENT in hooks && hooks[EVENT].Obj? ==> !GroupIsOurs(hooks[EVENT], exe))
            && (EVENT in hooks && hooks[EVENT].Arr? ==> NoneOursIn(hooks[EVENT].items, exe))
  {
    if EVENT in hooks {
      assert EVENT !in hooks - {EVENT};
      if hooks[EVENT].Arr? {
        ForeignKeepsForeign(hooks[EVENT].items, exe);
        hide Foreign, GroupIsOurs, NoneOursIn;
        assert hooks[EVENT := Arr(Foreign(hooks[EVENT].items, exe))][EVENT] == Arr(Foreign(hooks[EVENT].items, exe));
      }
    }
  }

  lemma UninstallChangesIff(m: map<string, Json>, exe: string)
    ensures Uninstalled(m, exe).Ok? <==> !MalformedEvent(m)
    ensures Uninstalled(m, exe).Ok? ==> (Uninstalled(m, exe).value != m <==> TakesFrom(m, exe))
  {
    if Uninstalled(m, exe).Ok? && HOOKS in m && m[HOOKS].Obj? {
      var hooks := m[HOOKS].members;
      HooksChangeIff(hooks, exe);
      hide HooksUninstalled, IsOurs, GroupIsOurs, NoneOursIn;
      var left := HooksUninstalled(hooks, exe).value;
      var noStatus := if STATUS in m && IsOurs(m[STATUS], exe) then m - {STATUS} else m;
      Recombined(m, noStatus, left);
      assert STATUS in m ==> STATUS !in m - {STATUS};
    } else if Uninstalled(m, exe).Ok? {
      assert STATUS in m ==> STATUS !in m - {STATUS};
    }
  }

  /** An uninstall plans to rewrite a file exactly when it is a JSON object whose
      prompt event is well formed and that has something to take. */
  lemma PlansUninstallIff(text: Text, exe: string, original: Bytes)
    ensures PlansUninstall(text, exe, original) <==>
            && Read(text, original).Ok?
            && !MalformedEvent(Read(text, original).value) && TakesFrom(Read(text, original).value, exe)
  {
    if Read(text, original).Ok? {
      UninstallChangesIff(Read(text, original).value, exe);
    }
  }

  /** The original survives every run of installs and uninstalls exactly when an
      uninstall has nothing to take from it. */
  lemma OriginalIsNeverLostIff(text: Text, exe: string, original: Bytes)
    requires Faithful(text)
    ensures (forall acts :: BySelf(acts, exe) ==>
               var f := AfterActs(text, Files(Some(original), None), acts);
               f.backup == Some(original) || f == Files(Some(original), None)) <==>
            Read(text, original).Ok? ==>
              MalformedEvent(Read(text, original).value) || !TakesFrom(Read(text, original).value, exe)
  {
    PlansUninstallIff(text, exe, original);
    if PlansUninstall(text, exe, original) {
      UninstallWithoutInstallKeepsNoCopy(text, exe, original);
      assert BySelf([Uninstall(exe, Written)], exe);
    } else {
      forall acts | BySelf(acts, exe)
        ensures var f := AfterActs(text, Files(Some(original), None), acts);
                f.backup == Some(original) || f == Files(Some(original), None)
      {
        OriginalIsNeverLost(text, exe, original, acts);
      }
    }
  }

  /** Nothing of ours in the file, and it is rewritten with no copy kept all the
      same: `{"hooks": {}}` becomes `{}`. */
  lemma EmptyHooksAreTaken(text: Text, exe: string, original: Bytes)
    requires Faithful(text) && text.parse(original) == Some(Obj(map[HOOKS := Obj(map[])]))
    ensures NoneOurs(map[HOOKS := Obj(map[])], exe)
    ensures AfterActs(text, Files(Some(original), None), [Uninstall(exe, Written)])
            == Files(Some(text.print_(Obj(map[]))), None)
    ensures text.print_(Obj(map[])) != original
  {
    var m: map<string, Json> := map[HOOKS := Obj(map[])];
    var f := Files(Some(original), None);
    var acts := [Uninstall(exe, Written)];
    assert acts[..0] == [] && AfterActs(text, f, acts[..0]) == f;
    assert m - {HOOKS} == map[] && HOOKS in m;
    assert text.parse(text.print_(Obj(map[]))) == Some(Obj(map[]));
  }

  predicate HasHook(group: Json, hook: Json) {
    var hooks := Get(group, HOOKS);
    hooks.Some? && hooks.value.Arr? && hook in hooks.value.items
  }

  /** A group with a hook that is not ours stays, and so does one with no hooks:
      no hook of the engineer's is lost. */
  lemma ForeignHooksSurvive(groups: seq<Json>, exe: string, group: Json)
    requires group in groups
    requires (exists hook :: HasHook(group, hook) && !IsOurs(hook, exe))
             || !Get(group, HOOKS).Some? || Get(group, HOOKS) == Some(Arr([]))
    ensures group in Foreign(groups, exe)
  {
    OursHasOnlyOurs(group, exe);
    OthersAreForeign(groups, exe, group);
  }

  lemma OursHasOnlyOurs(group: Json, exe: string)
    ensures GroupIsOurs(group, exe) ==>
              && Get(group, HOOKS).Some? && Get(group, HOOKS) != Some(Arr([]))
              && forall hook :: HasHook(group, hook) ==> IsOurs(hook, exe)
  {
    if GroupIsOurs(group, exe) {
      var hooks := Get(group, HOOKS).value.items;
      forall hook | hook in hooks
        ensures IsOurs(hook, exe)
      {
        var i :| 0 <= i < |hooks| && hooks[i] == hook;
        assert IsOurs(hooks[i], exe);
      }
    }
  }

  lemma {:induction false} OthersAreForeign(groups: seq<Json>, exe: string, group: Json)
    ensures group in Foreign(groups, exe) <==> group in groups && !GroupIsOurs(group, exe)
  {
    hide GroupIsOurs;
    if groups != [] {
      OthersAreForeign(groups[..|groups| - 1], exe, group);
      assert groups == groups[..|groups| - 1] + [groups[|groups| - 1]];
    }
  }

  /** A group of the prompt event: one of its array, or its one object. */
  predicate EventHolds(hooks: map<string, Json>, group: Json) {
    && "UserPromptSubmit" in hooks
    && var event := hooks["UserPromptSubmit"];
       (event.Arr? && group in event.items) || (event.Obj? && group == event)
  }

  predicate HoldsGroup(m: map<string, Json>, group: Json) {
    "hooks" in m && m["hooks"].Obj? && EventHolds(m["hooks"].members, group)
  }

  /** The groups after an install are ours and those before it that were not ours. */
  lemma InstalledGroupsIff(m: map<string, Json>, host: Host, exe: string, group: Json)
    requires Installed(m, host, exe).Ok?
    ensures HoldsGroup(Installed(m, host, exe).value, group) <==>
            group == OurGroup(host, exe) || (HoldsGroup(m, group) && !GroupIsOurs(group, exe))
  {
    OthersAreForeign(GroupsOf(HooksOf(m)).value, exe, group);
    hide Foreign, GroupIsOurs, OurGroup, StatusInstalled;
    assert HoldsGroup(m, group) <==> group in GroupsOf(HooksOf(m)).value;
  }

  lemma UninstalledHolds(hooks: map<string, Json>, exe: string, group: Json)
    requires HooksUninstalled(hooks, exe).Ok?
    ensures var left := HooksUninstalled(hooks, exe).value;
            && (EventHolds(left, group) <==> EventHolds(hooks, group) && !GroupIsOurs(group, exe))
            && (left == map[] ==> !EventHolds(left, group))
  {
    if EVENT in hooks && hooks[EVENT].Arr? {
      OthersAreForeign(hooks[EVENT].items, exe, group);
      ForeignKeepsForeign(hooks[EVENT].items, exe);
      if group in hooks[EVENT].items && NoneOursIn(hooks[EVENT].items, exe) {
        assert !GroupIsOurs(group, exe);
      }
    }
    hide Foreign, GroupIsOurs;
  }

  /** Those after an uninstall are the ones before it that were not ours. */
  lemma UninstalledGroupsIff(m: map<string, Json>, exe: string, group: Json)
    requires Uninstalled(m, exe).Ok?
    ensures HoldsGroup(Uninstalled(m, exe).value, group) <==> HoldsGroup(m, group) && !GroupIsOurs(group, exe)
  {
    assert |STATUS| != |HOOKS|;
    if HOOKS in m && m[HOOKS].Obj? {
      UninstalledHolds(m[HOOKS].members, exe, group);
    }
    hide HooksUninstalled, EventHolds, IsOurs, GroupIsOurs;
  }

  // ---------------------------------------------------------------- what is refused

  predicate IsEvent(v: Json) {
    v.Null? || v.Arr? || v.Obj?
  }

  /** The settings there are, if the file says any; none yet is an empty object. */
  function Before(text: Text, file: Option<Bytes>): Option<Json> {
    if file.None? then Some(Obj(map[])) else text.parse(file.value)
  }

  /** Why an install is refused; a missing file never is. */
  lemma InstallRefusedIff(text: Text, host: Host, exe: string, file: Option<Bytes>, backup: Option<Bytes>)
    ensures var r := InstallPlan(text, host, exe, file, backup);
            match Before(text, file)
            case None => r == Err(NotJson)
            case Some(Obj(m)) =>
              && (r == Err(HooksNotAnObject) <==> "hooks" in m && !m["hooks"].Obj?)
              && (r == Err(EventNotGroups) <==>
                    && "hooks" in m && m["hooks"].Obj?
                    && "UserPromptSubmit" in m["hooks"].members && !IsEvent(m["hooks"].members["UserPromptSubmit"]))
              && (r.Err? ==> r.error in {HooksNotAnObject, EventNotGroups})
            case _ => r == Err(NotAnObject)
  {
    hide StatusInstalled, Foreign, OurGroup;
  }

  /** Why an uninstall is; of a missing file there is nothing to do. */
  lemma UninstallRefusedIff(text: Text, exe: string, file: Option<Bytes>, backup: Option<Bytes>)
    ensures var r := UninstallPlan(text, exe, file, backup);
            if file.None? then r == Ok(None) else
            match text.parse(file.value)
            case None => r == Err(NotJson)
            case Some(Obj(m)) =>
              && (r == Err(EventNotGroups) <==>
                    && "hooks" in m && m["hooks"].Obj?
                    && "UserPromptSubmit" in m["hooks"].members && !IsEvent(m["hooks"].members["UserPromptSubmit"]))
              && (r.Err? ==> r.error == EventNotGroups)
            case _ => r == Err(NotAnObject)
  {
    hide Foreign, GroupIsOurs, IsOurs;
  }
}
