/** What the handlers the installer writes run, read back word by word: managedHandler of internal/adapters/codex/install/config.go. */
module HookCommand {
  import opened Common
  import opened HookConfig

  // ----- a reader of quoted shell words -----

  datatype Quoting = Bare | Single | Double

  /** What a POSIX shell expands or treats as an operator outside quotes; the reader does not go into it. */
  predicate IsSpecial(c: char) {
    c in ['$', '`', '\\', '&', ';', '|', '<', '>', '(', ')', '*', '?', '[', '#', '~', '\n']
  }

  /** word is the word begun, if one is. */
  function Words(s: string, q: Quoting, word: Option<string>): Option<seq<string>> {
    if s == "" then
      if q != Bare then None else if word.Some? then Some([word.value]) else Some([])
    else
      var c, rest, begun := s[0], s[1..], if word.Some? then word.value else "";
      match q
      case Single => if c == '\'' then Words(rest, Bare, Some(begun)) else Words(rest, Single, Some(begun + [c]))
      case Double =>
        if c == '"' then Words(rest, Bare, Some(begun))
        else if c == '$' || c == '`' || c == '\\' then None
        else Words(rest, Double, Some(begun + [c]))
      case Bare =>
        if c == '\'' then Words(rest, Single, Some(begun))
        else if c == '"' then Words(rest, Double, Some(begun))
        else if c == ' ' || c == '\t' then
          var more := Words(rest, Bare, None);
          if word.Some? && more.Some? then Some([word.value] + more.value) else more
        else if IsSpecial(c) then None
        else Words(rest, Bare, Some(begun + [c]))
  }

  function ReadWords(command: string): Option<seq<string>> {
    Words(command, Bare, None)
  }

  // ----- reading back what was quoted -----

  /** Five characters stand for one quote: close, a quote in double quotes, open again. */
  lemma EscapedQuote(rest: string, w: string)
    ensures Words("'\"'\"'" + rest, Single, Some(w)) == Words(rest, Single, Some(w + "'"))
  {
    var s := "'\"'\"'" + rest;
    assert s[1..] == "\"'\"'" + rest;
    assert s[1..][1..] == "'\"'" + rest;
    assert s[1..][1..][1..] == "\"'" + rest;
    assert s[1..][1..][1..][1..] == "'" + rest;
    assert s[1..][1..][1..][1..][1..] == rest;
    assert Words(s, Single, Some(w)) == Words(s[1..], Bare, Some(w));
    assert Words(s[1..], Bare, Some(w)) == Words(s[1..][1..], Double, Some(w));
    assert Words(s[1..][1..], Double, Some(w)) == Words(s[1..][1..][1..], Double, Some(w + ['\'']));
    assert Words(s[1..][1..][1..], Double, Some(w + "'")) == Words(s[1..][1..][1..][1..], Bare, Some(w + "'"));
  }

  lemma {:induction false} EscapedIsRead(value: string, rest: string, w: string)
    ensures Words(EscapeQuotes(value) + rest, Single, Some(w)) == Words(rest, Single, Some(w + value))
  {
    hide Words;
    if value == "" {
      assert "" + rest == rest && w + "" == w;
    } else {
      var tail := EscapeQuotes(value[1..]) + rest;
      EscapedIsRead(value[1..], rest, w + [value[0]]);
      assert w + [value[0]] + value[1..] == w + value;
      if value[0] == '\'' {
        assert EscapeQuotes(value) + rest == "'\"'\"'" + tail;
        EscapedQuote(tail, w);
      } else {
        assert EscapeQuotes(value) + rest == [value[0]] + tail;
        PlainInSingle(value[0], tail, w);
      }
    }
  }

  lemma PlainInSingle(c: char, rest: string, w: string)
    requires c != '\''
    ensures Words([c] + rest, Single, Some(w)) == Words(rest, Single, Some(w + [c]))
  {
    assert ([c] + rest)[1..] == rest;
  }

  /** A quoted value is read as what it quotes, whatever it holds. */
  lemma QuotedIsRead(value: string, rest: string)
    ensures Words(QuotePosix(value) + rest, Bare, None) == Words(rest, Bare, Some(value))
  {
    hide EscapeQuotes;
    var s := QuotePosix(value) + rest;
    assert s[0] == '\'' && s[1..] == EscapeQuotes(value) + ("'" + rest);
    EscapedIsRead(value, "'" + rest, "");
    assert "" + value == value;
    assert ("'" + rest)[1..] == rest;
  }

  lemma {:induction false} PlainWord(plain: string, rest: string, w: string)
    requires forall i :: 0 <= i < |plain| ==> plain[i] !in ['\'', '"', ' ', '\t'] && !IsSpecial(plain[i])
    ensures Words(plain + rest, Bare, Some(w)) == Words(rest, Bare, Some(w + plain))
  {
    if plain == "" {
      assert plain + rest == rest && w + plain == w;
    } else {
      assert (plain + rest)[1..] == plain[1..] + rest;
      PlainWord(plain[1..], rest, w + [plain[0]]);
      assert w + [plain[0]] + plain[1..] == w + plain;
    }
  }

  lemma SpaceEndsWord(rest: string, w: string)
    requires Words(rest, Bare, None).Some?
    ensures Words(" " + rest, Bare, Some(w)) == Some([w] + Words(rest, Bare, None).value)
  {
    assert (" " + rest)[1..] == rest;
  }

  predicate IsPlain(plain: string) {
    forall i :: 0 <= i < |plain| ==> plain[i] !in ['\'', '"', ' ', '\t'] && !IsSpecial(plain[i])
  }

  lemma PlainBegins(plain: string, rest: string)
    requires plain != "" && IsPlain(plain)
    ensures Words(plain + rest, Bare, None) == Words(rest, Bare, Some(plain))
  {
    assert (plain + rest)[1..] == plain[1..] + rest;
    assert plain[0] !in ['\'', '"', ' ', '\t'] && !IsSpecial(plain[0]);
    assert "" + [plain[0]] == [plain[0]];
    PlainWord(plain[1..], rest, [plain[0]]);
    assert [plain[0]] + plain[1..] == plain;
  }

  const OPTION := "--aav-install-id"

  lemma OptionIsPlain()
    ensures IsPlain(OPTION) && OPTION != ""
  {
  }

  lemma CommandParts(binaryPath: string)
    ensures ManagedCommand(binaryPath) == QuotePosix(binaryPath) + (" " + (OPTION + (" " + QuotePosix(INSTALL_ID))))
  {
    hide QuotePosix;
    assert " --aav-install-id " == " " + OPTION + " ";
    Reassociate(QuotePosix(binaryPath), " ", OPTION, " ", QuotePosix(INSTALL_ID));
  }

  lemma Reassociate(a: string, b: string, c: string, d: string, e: string)
    ensures a + (b + c + d) + e == a + (b + (c + (d + e)))
  {
  }

  /** The command runs the binary named, with the option and the install ID, and nothing else: three words. */
  lemma CommandRunsBinary(binaryPath: string)
    ensures ReadWords(ManagedCommand(binaryPath)) == Some([binaryPath, "--aav-install-id", "aav-codex-hooks-v1"])
  {
    hide Words, QuotePosix, ManagedCommand, IsPlain;
    var id := QuotePosix(INSTALL_ID);
    assert id + "" == id;
    QuotedIsRead(INSTALL_ID, "");
    LastWord(INSTALL_ID);
    SpaceEndsWord(id, OPTION);
    OptionIsPlain();
    PlainBegins(OPTION, " " + id);
    SpaceEndsWord(OPTION + (" " + id), binaryPath);
    QuotedIsRead(binaryPath, " " + (OPTION + (" " + id)));
    CommandParts(binaryPath);
    assert [binaryPath] + ([OPTION] + [INSTALL_ID]) == [binaryPath, OPTION, INSTALL_ID];
  }

  lemma LastWord(w: string)
    ensures Words("", Bare, Some(w)) == Some([w])
  {
  }

  // ----- every managed handler of a merge -----

  /** The handler runs the binary, on Windows too, waits a second, and bears the installer's label. */
  predicate RunsBinary(handler: Json, binaryPath: string) {
    && handler.Obj? && handler.fields.Keys == {TypeKey, CommandKey, CommandWindowsKey, TimeoutKey, StatusMessageKey}
    && handler.fields[TypeKey] == Str("command") && handler.fields[TimeoutKey] == Other("1")
    && handler.fields[StatusMessageKey] == Str("Agent Action Visualizer")
    && handler.fields[CommandKey].Str?
    && ReadWords(handler.fields[CommandKey].value) == Some([binaryPath, "--aav-install-id", "aav-codex-hooks-v1"])
    && handler.fields[CommandWindowsKey] == Str("\"" + binaryPath + "\" --aav-install-id \"aav-codex-hooks-v1\"")
  }

  lemma WindowsCommand(binaryPath: string)
    ensures "\"" + binaryPath + "\"" + " --aav-install-id \"" + INSTALL_ID + "\"" == "\"" + binaryPath + "\" --aav-install-id \"aav-codex-hooks-v1\""
  {
    var a, b, c, d := "\"" + binaryPath, "\"", " --aav-install-id \"", "\"";
    assert b + c + INSTALL_ID + d == "\" --aav-install-id \"aav-codex-hooks-v1\"";
    assert a + b + c + INSTALL_ID + d == a + (b + c + INSTALL_ID + d);
  }

  lemma HandlerFields(binaryPath: string)
    ensures var h := ManagedHandler(binaryPath);
            && h.Obj? && h.fields.Keys == {TypeKey, CommandKey, CommandWindowsKey, TimeoutKey, StatusMessageKey}
            && h.fields[TypeKey] == Str("command") && h.fields[TimeoutKey] == Other("1")
            && h.fields[StatusMessageKey] == Str(STATUS_LABEL) && h.fields[CommandKey] == Str(ManagedCommand(binaryPath))
            && h.fields[CommandWindowsKey] == Str("\"" + binaryPath + "\"" + " --aav-install-id \"" + INSTALL_ID + "\"")
  {
    hide ManagedCommand;
  }

  lemma ManagedHandlerRuns(binaryPath: string)
    ensures RunsBinary(ManagedHandler(binaryPath), binaryPath)
  {
    hide ReadWords, ManagedCommand, ManagedHandler;
    CommandRunsBinary(binaryPath);
    HandlerFields(binaryPath);
    WindowsCommand(binaryPath);
  }

  /** Every managed handler of a merged document runs the binary named; at each of the six events there is just one, in a group of its own at the end. */
  lemma MergedHandlersRunBinary(root: Root, binaryPath: string, event: Key)
    requires Merge(root, binaryPath, HOOK_EVENTS).Ok?
    ensures DecodeHooks(Merge(root, binaryPath, HOOK_EVENTS).value).Ok?
    ensures var groups := GroupsFor(DecodeHooks(Merge(root, binaryPath, HOOK_EVENTS).value).value, event);
            && (forall h :: h in AllHandlers(groups) && IsManaged(h) ==> RunsBinary(h, binaryPath))
            && (event in {SessionStart, SessionEnd, SubagentStart, SubagentStop, PreToolUse, PostToolUse} ==>
                 && groups != [] && Handlers(groups[|groups| - 1]) != []
                 && AllHandlers(groups) == AllHandlers(groups[..|groups| - 1]) + [Handlers(groups[|groups| - 1])[0]]
                 && IsManaged(Handlers(groups[|groups| - 1])[0])
                 && forall h :: h in AllHandlers(groups[..|groups| - 1]) ==> !IsManaged(h))
  {
    hide IsManaged, RunsBinary, ManagedHandler, ManagedGroup, RemoveManaged, WithGroup, AllHandlers, Handlers, HOOK_EVENTS;
    DecodeMerge(root, binaryPath, HOOK_EVENTS);
    var hooks := DecodeHooks(root).value;
    AddedGroups(RemoveManaged(hooks), binaryPath, event);
    CleanHasNoneManaged(hooks, event);
    GroupHandlers(binaryPath);
    ManagedHandlerRuns(binaryPath);
    ManagedHandlerIsManaged(binaryPath);
    var clean := GroupsFor(RemoveManaged(hooks), event);
    SnocGroup(clean, ManagedGroup(binaryPath));
    assert (clean + [ManagedGroup(binaryPath)])[..|clean|] == clean;
    assert clean + [] == clean;
    var groups := GroupsFor(DecodeHooks(Merge(root, binaryPath, HOOK_EVENTS).value).value, event);
    forall h | h in AllHandlers(groups) && IsManaged(h) ensures RunsBinary(h, binaryPath) {
      assert h !in AllHandlers(clean);
      assert h in Handlers(ManagedGroup(binaryPath));
    }
  }

  /** The group is added at the end of each of the six events, and nowhere else. */
  lemma AddedGroups(clean: Hooks, binaryPath: string, event: Key)
    ensures GroupsFor(WithGroup(clean, ManagedGroup(binaryPath), HOOK_EVENTS), event) ==
            GroupsFor(clean, event)
            + if event in {SessionStart, SessionEnd, SubagentStart, SubagentStop, PreToolUse, PostToolUse} then [ManagedGroup(binaryPath)] else []
  {
    hide ManagedGroup;
    SixEvents(event);
    assert GroupsFor(clean, event) + [] == GroupsFor(clean, event);
  }

  lemma SixEvents(event: Key)
    ensures event in HOOK_EVENTS <==> event in {SessionStart, SessionEnd, SubagentStart, SubagentStop, PreToolUse, PostToolUse}
  {
    var events := [SessionStart, SessionEnd, SubagentStart, SubagentStop, PreToolUse, PostToolUse];
    assert HOOK_EVENTS == events;
    assert event in events <==> exists i :: 0 <= i < 6 && events[i] == event;
  }

  lemma GroupHandlers(binaryPath: string)
    ensures Handlers(ManagedGroup(binaryPath)) == [ManagedHandler(binaryPath)]
  {
    hide ManagedHandler;
  }

  lemma CleanHasNoneManaged(hooks: Hooks, event: Key)
    ensures forall h :: h in AllHandlers(GroupsFor(RemoveManaged(hooks), event)) ==> !IsManaged(h)
  {
    hide IsManaged, KeptGroups, AllHandlers;
    if event in RemoveManaged(hooks) {
      KeptGroupsHandlers(hooks[event]);
      UnmanagedIsShorter(AllHandlers(hooks[event]));
    } else {
      NoHandlers();
    }
  }

  lemma NoHandlers()
    ensures AllHandlers([]) == []
  {
  }

  /** A handler is the installer's exactly when it bears the label and its command holds the install ID somewhere. */
  lemma ManagedIff(handler: Json)
    ensures IsManaged(handler) <==>
            && handler.Obj? && StatusMessageKey in handler.fields && handler.fields[StatusMessageKey] == Str("Agent Action Visualizer")
            && CommandKey in handler.fields && handler.fields[CommandKey].Str?
            && exists head, tail :: handler.fields[CommandKey].value == head + "aav-codex-hooks-v1" + tail
  {
    if handler.Obj? && CommandKey in handler.fields && handler.fields[CommandKey].Str? {
      HoldsIff(handler.fields[CommandKey].value, INSTALL_ID);
    }
  }

  lemma HoldsIff(s: string, part: string)
    ensures Contains(s, part) <==> exists head, tail :: s == head + part + tail
  {
    if Contains(s, part) {
      var i :| 0 <= i <= |s| && MatchesAt(s, part, i);
      assert s == s[..i] + part + s[i + |part|..];
    }
    if head, tail :| s == head + part + tail {
      assert s[|head|..|head| + |part|] == part;
      assert MatchesAt(s, part, |head|);
    }
  }

  /** A merge fails exactly on a hooks value that is no object of lists, or on a path that cannot be quoted. */
  lemma MergeErrsIff(root: Root, binaryPath: string)
    ensures Merge(root, binaryPath, HOOK_EVENTS).Err? <==>
            || '\0' in binaryPath || '\r' in binaryPath || '\n' in binaryPath || '"' in binaryPath
            || (HooksKey in root && !root[HooksKey].Null? && !root[HooksKey].Obj?)
            || (HooksKey in root && root[HooksKey].Obj? &&
                exists e :: e in root[HooksKey].fields && !root[HooksKey].fields[e].Arr? && !root[HooksKey].fields[e].Null?)
  {
    hide ManagedGroup, RemoveManaged, WithGroup;
  }
}
