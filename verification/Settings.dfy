/** The two entries the client keeps in a Claude Code settings file: planning
    an install or an uninstall, committing it, and the one backup. Objects are
    maps: what is said of them is said up to member order. */
module Settings {
  import opened Wrappers

  datatype Json =
    | Null
    | Bool(b: bool)
    | Num(text: string)
    | Str(s: string)
    | Arr(items: seq<Json>)
    | Obj(members: map<string, Json>)

  /** The JSON library: what the bytes of a file mean, and pretty-printed bytes. */
  datatype Text = Text(parse: Bytes -> Option<Json>, print_: Json -> Bytes)

  ghost predicate Faithful(text: Text) {
    forall v: Json :: text.parse(text.print_(v)) == Some(v)
  }

  datatype Host = Unix | Windows

  const STATUS := "statusLine"
  const HOOKS := "hooks"
  const EVENT := "UserPromptSubmit"

  // ---------------------------------------------------------------- what is ours

  predicate ContainsAt(s: string, part: string, i: nat) {
    i + |part| <= |s| && s[i..i + |part|] == part
  }

  predicate Contains(s: string, part: string) {
    exists i: nat :: i <= |s| && ContainsAt(s, part, i)
  }

  /** A single quote inside a single-quoted word: close, escape, reopen. */
  function Quoted(path: string): string {
    if path == [] then []
    else (if path[0] == '\'' then ['\'', '\\', '\'', '\''] else [path[0]]) + Quoted(path[1..])
  }

  function Command(host: Host, exe: string, verb: string): string {
    match host
    case Windows => ['"'] + exe + ['"', ' '] + verb
    case Unix => ['\''] + Quoted(exe) + ['\'', ' '] + verb
  }

  function Get(v: Json, key: string): Option<Json> {
    if v.Obj? && key in v.members then Some(v.members[key]) else None
  }

  predicate IsOurs(entry: Json, exe: string) {
    var command := Get(entry, "command");
    command.Some? && command.value.Str? && Contains(command.value.s, exe)
  }

  predicate GroupIsOurs(group: Json, exe: string) {
    var hooks := Get(group, HOOKS);
    && hooks.Some? && hooks.value.Arr? && hooks.value.items != []
    && forall i :: 0 <= i < |hooks.value.items| ==> IsOurs(hooks.value.items[i], exe)
  }

  function Foreign(groups: seq<Json>, exe: string): seq<Json> {
    if groups == [] then []
    else
      var front := Foreign(groups[..|groups| - 1], exe);
      if GroupIsOurs(groups[|groups| - 1], exe) then front else front + [groups[|groups| - 1]]
  }

  // ---------------------------------------------------------------- the two plans, as values

  function StatusEntry(host: Host, exe: string): Json {
    Obj(map["type" := Str("command"), "command" := Str(Command(host, exe, "statusline")),
            "padding" := Num("0"), "refreshInterval" := Num("10")])
  }

  function HookEntry(host: Host, exe: string): Json {
    Obj(map["type" := Str("command"), "command" := Str(Command(host, exe, "title-hook")), "timeout" := Num("2")])
  }

  function OurGroup(host: Host, exe: string): Json {
    Obj(map[HOOKS := Arr([HookEntry(host, exe)])])
  }

  datatype Invalid = NotJson | NotAnObject | HooksNotAnObject | EventNotGroups

  /** Ours is added, or its command refreshed; a foreign entry stays. */
  function StatusInstalled(m: map<string, Json>, host: Host, exe: string): map<string, Json> {
    if STATUS !in m then m[STATUS := StatusEntry(host, exe)]
    else if IsOurs(m[STATUS], exe) then
      m[STATUS := Obj(m[STATUS].members["command" := Str(Command(host, exe, "statusline"))])]
    else m
  }

  function GroupsOf(hooks: map<string, Json>): Result<seq<Json>, Invalid> {
    if EVENT !in hooks || hooks[EVENT].Null? then Ok([])
    else if hooks[EVENT].Arr? then Ok(hooks[EVENT].items)
    else if hooks[EVENT].Obj? then Ok([hooks[EVENT]])
    else Err(EventNotGroups)
  }

  function Installed(m: map<string, Json>, host: Host, exe: string): Result<map<string, Json>, Invalid> {
    var withStatus := StatusInstalled(m, host, exe);
    var hooks := if HOOKS in m then m[HOOKS] else Obj(map[]);
    if !hooks.Obj? then Err(HooksNotAnObject) else
    match GroupsOf(hooks.members)
    case Err(why) => Err(why)
    case Ok(groups) =>
      Ok(withStatus[HOOKS := Obj(hooks.members[EVENT := Arr(Foreign(groups, exe) + [OurGroup(host, exe)])])])
  }

  function HooksUninstalled(hooks: map<string, Json>, exe: string): Result<map<string, Json>, Invalid> {
    if EVENT !in hooks then Ok(hooks)
    else
      match hooks[EVENT]
      case Arr(groups) =>
        var kept := Foreign(groups, exe);
        Ok(if |kept| == |groups| then hooks else if kept == [] then hooks - {EVENT} else hooks[EVENT := Arr(kept)])
      case Obj(_) => Ok(if GroupIsOurs(hooks[EVENT], exe) then hooks - {EVENT} else hooks)
      case Null => Ok(hooks)
      case _ => Err(EventNotGroups)
  }

  function Uninstalled(m: map<string, Json>, exe: string): Result<map<string, Json>, Invalid> {
    var noStatus := if STATUS in m && IsOurs(m[STATUS], exe) then m - {STATUS} else m;
    if HOOKS !in m || !m[HOOKS].Obj? then Ok(noStatus) else
    match HooksUninstalled(m[HOOKS].members, exe)
    case Err(why) => Err(why)
    case Ok(hooks) => Ok(if hooks == map[] then noStatus - {HOOKS} else noStatus[HOOKS := Obj(hooks)])
  }

  /** A change not yet written; the backup is the original, when there is none yet. */
  datatype Plan = Plan(bytes: Bytes, backup: Option<Bytes>)

  function Read(text: Text, file: Bytes): Result<map<string, Json>, Invalid> {
    match text.parse(file)
    case None => Err(NotJson)
    case Some(v) => if v.Obj? then Ok(v.members) else Err(NotAnObject)
  }

  function InstallPlan(text: Text, host: Host, exe: string, file: Option<Bytes>, backup: Option<Bytes>)
    : Result<Option<Plan>, Invalid>
  {
    var original := if file.Some? then Read(text, file.value) else Ok(map[]);
    if original.Err? then Err(original.error) else
    match Installed(original.value, host, exe)
    case Err(why) => Err(why)
    case Ok(m) =>
      if m == original.value then Ok(None)
      else Ok(Some(Plan(text.print_(Obj(m)), if backup.None? then file else None)))
  }

  function UninstallPlan(text: Text, exe: string, file: Option<Bytes>, backup: Option<Bytes>)
    : Result<Option<Plan>, Invalid>
  {
    if file.None? then Ok(None) else
    match Read(text, file.value)
    case Err(why) => Err(why)
    case Ok(original) =>
      match Uninstalled(original, exe)
      case Err(why) => Err(why)
      case Ok(m) =>
        if m == original then Ok(None)
        else if backup.Some? && text.parse(backup.value) == Some(Obj(m)) then Ok(Some(Plan(backup.value, None)))
        else Ok(Some(Plan(text.print_(Obj(m)), None)))
  }

  // ---------------------------------------------------------------- the files

  datatype Files = Files(file: Option<Bytes>, backup: Option<Bytes>)

  function AfterCommit(f: Files, plan: Plan, first: WriteOutcome, second: WriteOutcome): (Files, bool) {
    var copies := plan.backup.Some? && f.backup.None?;
    var saved := if copies && !first.NotWritten? then f.(backup := plan.backup) else f;
    if copies && !first.Written? then (saved, false)
    else (if second.NotWritten? then saved else saved.(file := Some(plan.bytes)), second.Written?)
  }

  function AfterRemoveBackup(f: Files): Files {
    if f.file.Some? && f.backup == f.file then f.(backup := None) else f
  }

  /** The settings file and the backup beside it. */
  class SettingsFile {
    const text: Text
    var file: Option<Bytes>
    var backup: Option<Bytes>

    function View(): Files
      reads this
    {
      Files(file, backup)
    }

    constructor (text: Text, files: Files)
      ensures View() == files && this.text == text
    {
      this.text, file, backup := text, files.file, files.backup;
    }

    method PlanInstall(host: Host, exe: string) returns (r: Result<Option<Plan>, Invalid>)
      ensures r == InstallPlan(text, host, exe, file, backup)
    {
      hide Foreign, GroupIsOurs, StatusEntry, OurGroup, Command, Contains;
      var old_: map<string, Json> := map[];
      if file.Some? {
        var parsed := text.parse(file.value);
        if parsed.None? {
          return Err(NotJson);
        }
        if !parsed.value.Obj? {
          return Err(NotAnObject);
        }
        old_ := parsed.value.members;
      }
      var new_ := old_;
      if STATUS !in new_ {
        new_ := new_[STATUS := StatusEntry(host, exe)];
      } else if IsOurs(new_[STATUS], exe) {
        var entry := new_[STATUS].members;
        entry := entry["command" := Str(Command(host, exe, "statusline"))];
        new_ := new_[STATUS := Obj(entry)];
      }
      if HOOKS !in new_ {
        new_ := new_[HOOKS := Obj(map[])];
      }
      if !new_[HOOKS].Obj? {
        return Err(HooksNotAnObject);
      }
      var hooks := new_[HOOKS].members;
      var groups: seq<Json> := [];
      if EVENT in hooks {
        match hooks[EVENT] {
          case Null =>
          case Arr(items) => groups := items;
          case Obj(_) => groups := [hooks[EVENT]];
          case _ => return Err(EventNotGroups);
        }
      }
      var kept := Keep(groups, exe);
      hooks := hooks[EVENT := Arr(kept + [OurGroup(host, exe)])];
      new_ := new_[HOOKS := Obj(hooks)];
      assert Installed(old_, host, exe).Ok? && Installed(old_, host, exe).value == new_;
      if new_ == old_ {
        return Ok(None);
      }
      return Ok(Some(Plan(text.print_(Obj(new_)), if backup.None? then file else None)));
    }

    /** The groups that are not ours alone, in their order. */
    static method Keep(groups: seq<Json>, exe: string) returns (kept: seq<Json>)
      ensures kept == Foreign(groups, exe)
    {
      kept := [];
      for i := 0 to |groups|
        invariant kept == Foreign(groups[..i], exe)
      {
        assert groups[..i + 1][..i] == groups[..i];
        if !GroupIsOurs(groups[i], exe) {
          kept := kept + [groups[i]];
        }
      }
      assert groups[..|groups|] == groups;
    }

    method PlanUninstall(exe: string) returns (r: Result<Option<Plan>, Invalid>)
      ensures r == UninstallPlan(text, exe, file, backup)
    {
      if file.None? {
        return Ok(None);
      }
      var parsed := text.parse(file.value);
      if parsed.None? {
        return Err(NotJson);
      }
      if !parsed.value.Obj? {
        return Err(NotAnObject);
      }
      var old_ := parsed.value.members;
      var new_ := old_;
      if STATUS in new_ && IsOurs(new_[STATUS], exe) {
        new_ := new_ - {STATUS};
      }
      if HOOKS in new_ && new_[HOOKS].Obj? {
        var hooks := new_[HOOKS].members;
        if EVENT in hooks {
          match hooks[EVENT] {
            case Arr(groups) =>
              var kept := Keep(groups, exe);
              if |kept| != |groups| {
                hooks := if kept == [] then hooks - {EVENT} else hooks[EVENT := Arr(kept)];
              }
            case Obj(_) =>
              if GroupIsOurs(hooks[EVENT], exe) {
                hooks := hooks - {EVENT};
              }
            case Null =>
            case _ => return Err(EventNotGroups);
          }
        }
        new_ := new_[HOOKS := Obj(hooks)];
      }
      if HOOKS in new_ && new_[HOOKS].Obj? && new_[HOOKS].members == map[] {
        new_ := new_ - {HOOKS};
      }
      assert Uninstalled(old_, exe).Ok? && Uninstalled(old_, exe).value == new_;
      if new_ == old_ {
        return Ok(None);
      }
      if backup.Some? {
        var restored := text.parse(backup.value);
        if restored == Some(Obj(new_)) {
          return Ok(Some(Plan(backup.value, None)));
        }
      }
      return Ok(Some(Plan(text.print_(Obj(new_)), None)));
    }

    /** The backup first, when the plan carries one and none exists; then the file. */
    method Commit(plan: Plan, first: WriteOutcome, second: WriteOutcome) returns (ok: bool)
      modifies this
      ensures (View(), ok) == AfterCommit(old(View()), plan, first, second)
      ensures ok <==> (plan.backup.None? || old(backup).Some? || first.Written?) && second.Written?
      ensures ok ==> file == Some(plan.bytes) && (plan.backup.Some? ==> backup.Some?)
    {
      if plan.backup.Some? && backup.None? {
        if !first.NotWritten? {
          backup := plan.backup;
        }
        if !first.Written? {
          return false;
        }
      }
      if !second.NotWritten? {
        file := Some(plan.bytes);
      }
      ok := second.Written?;
    }

    method RemoveBackup()
      modifies this
      ensures View() == AfterRemoveBackup(old(View()))
    {
      if file.Some? && backup.Some? && backup.value == file.value {
        backup := None;
      }
    }
  }
}
