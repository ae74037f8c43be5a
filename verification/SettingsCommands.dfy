/** The commands an install writes are run as meant: split into words the way
    the host splits a line, they are the executable and its verb. */
module SettingsCommands {
  import opened Wrappers
  import opened Settings
  import opened SettingsTheorems

  // ---------------------------------------------------------------- words of a line

  /** What a shell acts on outside quotes, beside the quotes, the backslash and
      the space. */
  predicate Special(c: char) {
    c in "\"$`|&;<>()*?[]#~=%!{}\t\n\r"
  }

  /** The words of a line as a Unix shell splits it: single quotes keep
      everything up to the next one, a backslash outside them the character
      after it, spaces separate. `None` for an open quote, and for anything the
      shell would act on. `word` is the word begun. */
  function ShellSplit(s: string, word: Option<string>, quoted: bool): Option<seq<string>>
    decreases |s|
  {
    var begun := if word.Some? then word.value else "";
    if s == "" then
      if quoted then None else if word.Some? then Some([begun]) else Some([])
    else if quoted then
      if s[0] == '\'' then ShellSplit(s[1..], Some(begun), false) else ShellSplit(s[1..], Some(begun + [s[0]]), true)
    else if s[0] == '\'' then ShellSplit(s[1..], Some(begun), true)
    else if s[0] == '\\' then
      if |s| == 1 then None else ShellSplit(s[2..], Some(begun + [s[1]]), false)
    else if s[0] == ' ' then
      match ShellSplit(s[1..], None, false)
      case None => None
      case Some(words) => Some((if word.Some? then [begun] else []) + words)
    else if Special(s[0]) then None
    else ShellSplit(s[1..], Some(begun + [s[0]]), false)
  }

  /** The words of a Windows command line: double quotes keep spaces and are
      dropped, as for the name of the program. */
  function WindowsSplit(s: string, word: Option<string>, quoted: bool): seq<string>
    decreases |s|
  {
    var begun := if word.Some? then word.value else "";
    if s == "" then if word.Some? then [begun] else []
    else if s[0] == '"' then WindowsSplit(s[1..], Some(begun), !quoted)
    else if s[0] == ' ' && !quoted then (if word.Some? then [begun] else []) + WindowsSplit(s[1..], None, false)
    else WindowsSplit(s[1..], Some(begun + [s[0]]), quoted)
  }

  function Words(host: Host, line: string): Option<seq<string>> {
    match host
    case Unix => ShellSplit(line, None, false)
    case Windows => Some(WindowsSplit(line, None, false))
  }

  predicate PlainVerb(verb: string) {
    verb != "" && forall i :: 0 <= i < |verb| ==> 'a' <= verb[i] <= 'z' || verb[i] == '-'
  }

  // ---------------------------------------------------------------- Unix

  lemma PlainIsNotSpecial(c: char)
    requires 'a' <= c <= 'z' || c == '-'
    ensures !Special(c) && c != '\'' && c != '\\' && c != ' ' && c != '"'
  {
  }

  lemma {:induction false} VerbIsAWord(verb: string, begun: string)
    requires forall i :: 0 <= i < |verb| ==> 'a' <= verb[i] <= 'z' || verb[i] == '-'
    ensures ShellSplit(verb, Some(begun), false) == Some([begun + verb])
    ensures WindowsSplit(verb, Some(begun), false) == [begun + verb]
    decreases |verb|
  {
    if verb == "" {
      assert begun + "" == begun;
    } else {
      PlainIsNotSpecial(verb[0]);
      hide Special;
      VerbIsAWord(verb[1..], begun + [verb[0]]);
      assert begun + [verb[0]] + verb[1..] == begun + verb;
    }
  }

  lemma VerbBegins(verb: string)
    requires PlainVerb(verb)
    ensures ShellSplit(verb, None, false) == Some([verb]) && WindowsSplit(verb, None, false) == [verb]
  {
    PlainIsNotSpecial(verb[0]);
    hide Special;
    VerbIsAWord(verb[1..], [verb[0]]);
    assert [verb[0]] + verb[1..] == verb;
    assert "" + [verb[0]] == [verb[0]];
  }

  /** Behind an opening quote the quoted path is read back, whatever it holds. */
  lemma {:induction false} QuotedIsRead(exe: string, tail: string, begun: string)
    ensures ShellSplit(Quoted(exe) + ['\''] + tail, Some(begun), true) == ShellSplit(tail, Some(begun + exe), false)
    decreases |exe|
  {
    hide *;
    QuotedStep(exe, tail);
    if exe == "" {
      QuoteEnds(Quoted(exe) + ['\''] + tail, tail, begun);
      assert begun + "" == begun;
    } else {
      var rest := Quoted(exe[1..]) + ['\''] + tail;
      if exe[0] == '\'' {
        EscapedQuote(rest, begun);
      } else {
        QuotedCharacter(exe[0], rest, begun);
      }
      QuotedIsRead(exe[1..], tail, begun + [exe[0]]);
      assert begun + [exe[0]] + exe[1..] == begun + exe;
    }
  }

  lemma QuotedStep(exe: string, tail: string)
    ensures exe == "" ==> Quoted(exe) + ['\''] + tail == ['\''] + tail
    ensures exe != "" ==>
              Quoted(exe) + ['\''] + tail ==
              (if exe[0] == '\'' then ['\'', '\\', '\'', '\''] else [exe[0]]) + (Quoted(exe[1..]) + ['\''] + tail)
  {
  }

  lemma QuoteEnds(s: string, tail: string, begun: string)
    requires s == ['\''] + tail
    ensures ShellSplit(s, Some(begun), true) == ShellSplit(tail, Some(begun), false)
  {
    assert s[1..] == tail;
  }

  lemma QuotedCharacter(c: char, rest: string, begun: string)
    requires c != '\''
    ensures ShellSplit([c] + rest, Some(begun), true) == ShellSplit(rest, Some(begun + [c]), true)
  {
    assert ([c] + rest)[1..] == rest;
  }

  /** Close, an escaped quote, reopen. */
  lemma EscapedQuote(rest: string, begun: string)
    ensures ShellSplit(['\'', '\\', '\'', '\''] + rest, Some(begun), true) == ShellSplit(rest, Some(begun + ['\'']), true)
  {
    var s := ['\'', '\\', '\'', '\''] + rest;
    QuoteEnds(s, ['\\', '\'', '\''] + rest, begun);
    Backslashed('\'', ['\''] + rest, begun);
    assert ['\\', '\''] + (['\''] + rest) == ['\\', '\'', '\''] + rest;
    QuoteOpens(rest, begun + ['\'']);
  }

  lemma Backslashed(c: char, rest: string, begun: string)
    ensures ShellSplit(['\\', c] + rest, Some(begun), false) == ShellSplit(rest, Some(begun + [c]), false)
  {
    assert (['\\', c] + rest)[2..] == rest;
  }

  lemma QuoteOpens(rest: string, begun: string)
    ensures ShellSplit(['\''] + rest, Some(begun), false) == ShellSplit(rest, Some(begun), true)
  {
    assert (['\''] + rest)[1..] == rest;
  }

  /** Whatever the path holds, the line is two words: the path and the verb. */
  lemma UnixCommandIsTwoWords(exe: string, verb: string)
    requires PlainVerb(verb)
    ensures Words(Unix, Command(Unix, exe, verb)) == Some([exe, verb])
  {
    var tail := [' '] + verb;
    var line := Command(Unix, exe, verb);
    var inner := Quoted(exe) + ['\''] + tail;
    assert line == ['\''] + inner;
    assert line[1..] == inner;
    LineOpens(line, inner);
    hide Command, Words;
    assert Words(Unix, line) == ShellSplit(line, None, false) by {
      WordsAre(line);
    }
    QuotedIsRead(exe, tail, "");
    assert "" + exe == exe;
    VerbBegins(verb);
    SpaceSplits(exe, verb);
    hide ShellSplit, Quoted;
    assert [exe] + [verb] == [exe, verb];
  }

  lemma WordsAre(line: string)
    ensures Words(Unix, line) == ShellSplit(line, None, false)
    ensures Words(Windows, line) == Some(WindowsSplit(line, None, false))
  {
  }

  lemma LineOpens(line: string, inner: string)
    ensures line == ['\''] + inner ==> ShellSplit(line, None, false) == ShellSplit(inner, Some(""), true)
    ensures line == ['"'] + inner ==> WindowsSplit(line, None, false) == WindowsSplit(inner, Some(""), true)
  {
    assert line == ['\''] + inner ==> line[1..] == inner;
    assert line == ['"'] + inner ==> line[1..] == inner;
  }

  lemma SpaceSplits(exe: string, verb: string)
    requires PlainVerb(verb)
    ensures ShellSplit([' '] + verb, Some(exe), false) == Some([exe] + [verb])
    ensures WindowsSplit([' '] + verb, Some(exe), false) == [exe] + [verb]
  {
    VerbBegins(verb);
    assert ([' '] + verb)[1..] == verb;
  }

  // ---------------------------------------------------------------- Windows

  lemma {:induction false} WindowsQuotedIsRead(exe: string, tail: string, begun: string)
    requires '"' !in exe
    ensures WindowsSplit(exe + ['"'] + tail, Some(begun), true) == WindowsSplit(tail, Some(begun + exe), false)
    decreases |exe|
  {
    var s := exe + ['"'] + tail;
    if exe == "" {
      assert s == ['"'] + tail && s[1..] == tail && begun + "" == begun;
    } else {
      assert s[1..] == exe[1..] + ['"'] + tail && s[0] == exe[0];
      WindowsQuotedIsRead(exe[1..], tail, begun + [exe[0]]);
      assert begun + [exe[0]] + exe[1..] == begun + exe;
    }
  }

  /** No word holds a double quote. */
  lemma {:induction false} NoQuoteInWords(s: string, word: Option<string>, quoted: bool)
    requires word.Some? ==> '"' !in word.value
    ensures forall i :: 0 <= i < |WindowsSplit(s, word, quoted)| ==> '"' !in WindowsSplit(s, word, quoted)[i]
    decreases |s|
  {
    if s != "" {
      var begun := if word.Some? then word.value else "";
      if s[0] == '"' {
        NoQuoteInWords(s[1..], Some(begun), !quoted);
      } else if s[0] == ' ' && !quoted {
        NoQuoteInWords(s[1..], None, false);
      } else {
        NoQuoteInWords(s[1..], Some(begun + [s[0]]), quoted);
      }
    }
  }

  /** On Windows exactly when the path holds no double quote, which no path there does. */
  lemma WindowsCommandIsTwoWordsIff(exe: string, verb: string)
    requires PlainVerb(verb)
    ensures Words(Windows, Command(Windows, exe, verb)) == Some([exe, verb]) <==> '"' !in exe
  {
    var line, tail := Command(Windows, exe, verb), [' '] + verb;
    if '"' in exe {
      NoQuoteInWords(line, None, false);
      var words := WindowsSplit(line, None, false);
      hide WindowsSplit;
      assert |words| == 2 ==> '"' !in words[0];
    } else {
      assert line == ['"'] + (exe + ['"'] + tail);
      LineOpens(line, exe + ['"'] + tail);
      WindowsQuotedIsRead(exe, tail, "");
      SpaceSplits(exe, verb);
      hide WindowsSplit;
      assert "" + exe == exe && [exe] + [verb] == [exe, verb];
    }
  }

  // ---------------------------------------------------------------- after an install

  /** The executable can be named in a command on this host. */
  predicate Nameable(host: Host, exe: string) {
    host.Unix? || '"' !in exe
  }

  /** An entry whose command runs the executable with this verb. */
  predicate Runs(host: Host, entry: Json, exe: string, verb: string) {
    var command := Get(entry, "command");
    && Get(entry, "type") == Some(Str("command"))
    && command.Some? && command.value.Str? && Words(host, command.value.s) == Some([exe, verb])
  }

  lemma CommandIsTwoWords(host: Host, exe: string, verb: string)
    requires Nameable(host, exe) && PlainVerb(verb)
    ensures Words(host, Command(host, exe, verb)) == Some([exe, verb])
  {
    if host.Unix? {
      UnixCommandIsTwoWords(exe, verb);
    } else {
      WindowsCommandIsTwoWordsIff(exe, verb);
    }
  }

  lemma VerbsArePlain()
    ensures PlainVerb("statusline") && PlainVerb("title-hook")
  {
  }

  lemma EntriesRun(host: Host, exe: string)
    requires Nameable(host, exe)
    ensures Runs(host, StatusEntry(host, exe), exe, "statusline")
    ensures Runs(host, HookEntry(host, exe), exe, "title-hook")
    ensures Get(HookEntry(host, exe), "timeout") == Some(Num("2"))
    ensures Get(StatusEntry(host, exe), "padding") == Some(Num("0"))
    ensures Get(StatusEntry(host, exe), "refreshInterval") == Some(Num("10"))
  {
    hide PlainVerb, Words, Command;
    VerbsArePlain();
    CommandIsTwoWords(host, exe, "statusline");
    CommandIsTwoWords(host, exe, "title-hook");
  }

  lemma InstalledHookRuns(m: map<string, Json>, host: Host, exe: string)
    requires Nameable(host, exe) && Installed(m, host, exe).Ok?
    ensures var after := Installed(m, host, exe).value;
            && HOOKS in after && after[HOOKS].Obj? && EVENT in after[HOOKS].members
            && after[HOOKS].members[EVENT].Arr? && after[HOOKS].members[EVENT].items != []
            && var groups := after[HOOKS].members[EVENT].items;
               var hooks := Get(groups[|groups| - 1], HOOKS);
               && hooks.Some? && hooks.value.Arr? && |hooks.value.items| == 1
               && Runs(host, hooks.value.items[0], exe, "title-hook")
               && Get(hooks.value.items[0], "timeout") == Some(Num("2"))
  {
    EntriesRun(host, exe);
    hide Words, Command, Foreign, StatusEntry, HookEntry, Contains, Runs, StatusInstalled, Get;
    var hooks := if HOOKS in m then m[HOOKS] else Obj(map[]);
    var groups := GroupsOf(hooks.members).value;
    var all := Foreign(groups, exe) + [OurGroup(host, exe)];
    assert all[|all| - 1] == OurGroup(host, exe);
    GroupHolds(host, exe);
  }

  lemma GroupHolds(host: Host, exe: string)
    ensures Get(OurGroup(host, exe), HOOKS) == Some(Arr([HookEntry(host, exe)]))
  {
    hide HookEntry;
  }

  lemma InstalledStatusRuns(m: map<string, Json>, host: Host, exe: string)
    requires Nameable(host, exe)
    ensures var after := StatusInstalled(m, host, exe);
            && STATUS in after
            && (STATUS !in m ==>
                  && Runs(host, after[STATUS], exe, "statusline")
                  && Get(after[STATUS], "padding") == Some(Num("0"))
                  && Get(after[STATUS], "refreshInterval") == Some(Num("10")))
            && (STATUS in m && IsOurs(m[STATUS], exe) ==>
                  && Get(after[STATUS], "command").Some? && Get(after[STATUS], "command").value.Str?
                  && Words(host, Get(after[STATUS], "command").value.s) == Some([exe, "statusline"])
                  && forall key :: key != "command" ==> Get(after[STATUS], key) == Get(m[STATUS], key))
            && (STATUS in m && !IsOurs(m[STATUS], exe) ==> after[STATUS] == m[STATUS])
  {
    hide PlainVerb, Words, Command, StatusEntry, Contains, Runs;
    EntriesRun(host, exe);
    VerbsArePlain();
    CommandIsTwoWords(host, exe, "statusline");
  }

  lemma StatusOfInstalled(m: map<string, Json>, host: Host, exe: string)
    requires Installed(m, host, exe).Ok?
    ensures var (after, status) := (Installed(m, host, exe).value, StatusInstalled(m, host, exe));
            (STATUS in after <==> STATUS in status) && (STATUS in after ==> after[STATUS] == status[STATUS])
  {
    hide Foreign, StatusInstalled, OurGroup;
  }

  /** After an install the last prompt group is ours and runs the title hook; the
      status line runs ours where there was none or ours, and is the engineer's
      otherwise. */
  lemma InstalledCommandsRun(m: map<string, Json>, host: Host, exe: string)
    requires Nameable(host, exe) && Installed(m, host, exe).Ok?
    ensures var after := Installed(m, host, exe).value;
            && "hooks" in after && after["hooks"].Obj? && "UserPromptSubmit" in after["hooks"].members
            && after["hooks"].members["UserPromptSubmit"].Arr?
            && after["hooks"].members["UserPromptSubmit"].items != []
            && var groups := after["hooks"].members["UserPromptSubmit"].items;
               var hooks := Get(groups[|groups| - 1], "hooks");
               && hooks.Some? && hooks.value.Arr? && |hooks.value.items| == 1
               && Runs(host, hooks.value.items[0], exe, "title-hook")
               && Get(hooks.value.items[0], "timeout") == Some(Num("2"))
    ensures var after := Installed(m, host, exe).value;
            && "statusLine" in after
            && ("statusLine" !in m ==>
                  && Runs(host, after["statusLine"], exe, "statusline")
                  && Get(after["statusLine"], "padding") == Some(Num("0"))
                  && Get(after["statusLine"], "refreshInterval") == Some(Num("10")))
            && ("statusLine" in m && IsOurs(m["statusLine"], exe) ==>
                  && Get(after["statusLine"], "command").Some? && Get(after["statusLine"], "command").value.Str?
                  && Words(host, Get(after["statusLine"], "command").value.s) == Some([exe, "statusline"])
                  && forall key :: key != "command" ==> Get(after["statusLine"], key) == Get(m["statusLine"], key))
            && ("statusLine" in m && !IsOurs(m["statusLine"], exe) ==> after["statusLine"] == m["statusLine"])
  {
    assert HOOKS == "hooks" && EVENT == "UserPromptSubmit" && STATUS == "statusLine";
    hide *;
    InstalledHookRuns(m, host, exe);
    InstalledStatusRuns(m, host, exe);
    StatusOfInstalled(m, host, exe);
  }
}
