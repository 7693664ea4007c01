/**
 The hooks.json editing of internal/adapters/codex/install/config.go, on parsed JSON.
 */
module HookConfig {
  import opened Common

  /** Object keys: the names the installer writes or looks up, and every other name. */
  datatype Key =
    | HooksKey | TypeKey | CommandKey | CommandWindowsKey | TimeoutKey | StatusMessageKey
    | SessionStart | SessionEnd | SubagentStart | SubagentStop | PreToolUse | PostToolUse
    | OtherKey(name: string)

  /** Other stands for numbers and booleans, which the installer never looks into. */
  datatype Json = Null | Other(text: string) | Str(value: string) | Arr(items: seq<Json>) | Obj(fields: map<Key, Json>)

  type Root = map<Key, Json>
  type Hooks = map<Key, seq<Json>>

  const INSTALL_ID := "aav-codex-hooks-v1"
  const STATUS_LABEL := "Agent Action Visualizer"
  const HOOK_EVENTS: seq<Key> := [SessionStart, SessionEnd, SubagentStart, SubagentStop, PreToolUse, PostToolUse]

  // ----- decoding and encoding the hooks object -----

  predicate IsList(j: Json) {
    j.Arr? || j.Null?
  }

  function ListItems(j: Json): seq<Json>
    requires IsList(j)
  {
    if j.Arr? then j.items else []
  }

  function DecodeHooks(root: Root): Result<Hooks> {
    if HooksKey !in root || root[HooksKey].Null? then Ok(map[])
    else if !root[HooksKey].Obj? then Err("parse hooks object")
    else
      var fields := root[HooksKey].fields;
      if exists e :: e in fields && !IsList(fields[e]) then Err("parse hooks object")
      else Ok(map e | e in fields :: ListItems(fields[e]))
  }

  function EncodeHooks(hooks: Hooks): Json {
    Obj(map e | e in hooks :: Arr(hooks[e]))
  }

  lemma DecodeEncode(root: Root, hooks: Hooks)
    ensures DecodeHooks(root[HooksKey := EncodeHooks(hooks)]) == Ok(hooks)
  {
    var fields := EncodeHooks(hooks).fields;
    assert (map e | e in fields :: ListItems(fields[e])) == hooks;
  }

  // ----- managed handlers -----

  predicate MatchesAt(s: string, part: string, i: nat) {
    i + |part| <= |s| && s[i..i + |part|] == part
  }

  predicate Contains(s: string, part: string) {
    exists i :: 0 <= i <= |s| && MatchesAt(s, part, i)
  }

  predicate IsManaged(handler: Json) {
    && handler.Obj?
    && StatusMessageKey in handler.fields && handler.fields[StatusMessageKey] == Str(STATUS_LABEL)
    && CommandKey in handler.fields && handler.fields[CommandKey].Str?
    && Contains(handler.fields[CommandKey].value, INSTALL_ID)
  }

  predicate HasHandlers(group: Json) {
    group.Obj? && HooksKey in group.fields && IsList(group.fields[HooksKey])
  }

  /** The handlers of a group; a group of any other shape has none. */
  function Handlers(group: Json): seq<Json> {
    if HasHandlers(group) then ListItems(group.fields[HooksKey]) else []
  }

  function Unmanaged(handlers: seq<Json>): seq<Json> {
    if handlers == [] then []
    else Unmanaged(handlers[..|handlers| - 1]) +
         if IsManaged(handlers[|handlers| - 1]) then [] else [handlers[|handlers| - 1]]
  }

  function ManagedInGroup(group: Json): nat {
    UnmanagedIsShorter(Handlers(group));
    |Handlers(group)| - |Unmanaged(Handlers(group))|
  }

  lemma {:induction false} UnmanagedIsShorter(handlers: seq<Json>)
    ensures |Unmanaged(handlers)| <= |handlers|
    ensures |Unmanaged(handlers)| == |handlers| ==> Unmanaged(handlers) == handlers
    ensures forall h :: h in Unmanaged(handlers) ==> !IsManaged(h)
  {
    if handlers != [] {
      UnmanagedIsShorter(handlers[..|handlers| - 1]);
    }
  }

  lemma {:induction false} UnmanagedConcat(a: seq<Json>, b: seq<Json>)
    ensures Unmanaged(a + b) == Unmanaged(a) + Unmanaged(b)
  {
    if b == [] {
      assert a + b == a;
    } else {
      assert (a + b)[..|a + b| - 1] == a + b[..|b| - 1];
      UnmanagedConcat(a, b[..|b| - 1]);
    }
  }

  lemma UnmanagedSnoc(handlers: seq<Json>, h: Json)
    ensures Unmanaged(handlers + [h]) == Unmanaged(handlers) + if IsManaged(h) then [] else [h]
  {
    hide IsManaged;
    assert (handlers + [h])[..|handlers|] == handlers;
  }

  ghost predicate NoneIn(handlers: seq<Json>) {
    forall i :: 0 <= i < |handlers| ==> !IsManaged(handlers[i])
  }

  lemma {:induction false} UnmanagedStays(handlers: seq<Json>)
    requires NoneIn(handlers)
    ensures Unmanaged(handlers) == handlers
  {
    hide IsManaged, Unmanaged;
    if handlers == [] {
      UnmanagedOfNone();
    } else {
      var front, last := handlers[..|handlers| - 1], handlers[|handlers| - 1];
      UnmanagedStays(front);
      UnmanagedSnoc(front, last);
      assert handlers == front + [last];
    }
  }

  lemma UnmanagedOfNone()
    ensures Unmanaged([]) == []
  {
  }

  lemma UnmanagedFixed(handlers: seq<Json>)
    requires forall h :: h in handlers ==> !IsManaged(h)
    ensures Unmanaged(handlers) == handlers
  {
    hide IsManaged, Unmanaged;
    UnmanagedStays(handlers);
  }

  datatype Stripped = Stripped(group: Json, removed: nat, keep: bool)

  function StripGroup(group: Json): Stripped {
    var removed := ManagedInGroup(group);
    if removed == 0 then Stripped(group, 0, true)
    else if Unmanaged(Handlers(group)) == [] then Stripped(Null, removed, false)
    else Stripped(Obj(group.fields[HooksKey := Arr(Unmanaged(Handlers(group)))]), removed, true)
  }

  function KeptGroups(groups: seq<Json>): seq<Json> {
    if groups == [] then []
    else
      var last := StripGroup(groups[|groups| - 1]);
      KeptGroups(groups[..|groups| - 1]) + if last.keep then [last.group] else []
  }

  function ManagedInGroups(groups: seq<Json>): nat {
    if groups == [] then 0
    else ManagedInGroups(groups[..|groups| - 1]) + ManagedInGroup(groups[|groups| - 1])
  }

  function AllHandlers(groups: seq<Json>): seq<Json> {
    if groups == [] then []
    else AllHandlers(groups[..|groups| - 1]) + Handlers(groups[|groups| - 1])
  }

  function RemoveManaged(hooks: Hooks): Hooks {
    map e | e in hooks && KeptGroups(hooks[e]) != [] :: KeptGroups(hooks[e])
  }

  // ----- the in-place filters -----

  /** kept := handlers[:0] followed by appends: the kept prefix overtakes nothing still to be read. */
  method FilterHandlers(handlers: array<Json>) returns (kept: nat, removed: nat)
    modifies handlers
    ensures kept <= handlers.Length && handlers[..kept] == Unmanaged(old(handlers[..]))
    ensures removed == handlers.Length - kept
  {
    kept, removed := 0, 0;
    for i := 0 to handlers.Length
      invariant kept + removed == i
      invariant handlers[..kept] == Unmanaged(old(handlers[..i]))
      invariant handlers[i..] == old(handlers[i..])
    {
      var payload := handlers[i];
      assert payload == old(handlers[i]) by {
        assert handlers[i..][0] == old(handlers[i..])[0];
      }
      assert old(handlers[..i + 1])[..i] == old(handlers[..i]);
      assert handlers[i + 1..] == old(handlers[i + 1..]) by {
        assert handlers[i..][1..] == old(handlers[i..])[1..];
      }
      if IsManaged(payload) {
        removed := removed + 1;
      } else {
        handlers[kept] := payload;
        kept := kept + 1;
      }
    }
    assert old(handlers[..handlers.Length]) == old(handlers[..]);
  }

  method StripManagedHooks(group: Json) returns (cleaned: Json, removed: nat, keep: bool)
    ensures Stripped(cleaned, removed, keep) == StripGroup(group)
  {
    hide Unmanaged, IsManaged;
    UnmanagedIsShorter(Handlers(group));
    if !HasHandlers(group) {
      return group, 0, true;
    }
    var items := ListItems(group.fields[HooksKey]);
    var handlers := new Json[|items|](i requires 0 <= i < |items| => items[i]);
    assert handlers[..] == items;
    var kept;
    kept, removed := FilterHandlers(handlers);
    if removed == 0 {
      return group, 0, true;
    }
    if kept == 0 {
      return Null, removed, false;
    }
    return Obj(group.fields[HooksKey := Arr(handlers[..kept])]), removed, true;
  }

  lemma NoGroups()
    ensures KeptGroups([]) == [] && ManagedInGroups([]) == 0
  {
  }

  lemma StripCounts(group: Json)
    ensures StripGroup(group).removed == ManagedInGroup(group)
  {
  }

  method FilterGroups(groups: array<Json>) returns (kept: nat, removed: nat)
    modifies groups
    ensures kept <= groups.Length && groups[..kept] == KeptGroups(old(groups[..]))
    ensures removed == ManagedInGroups(old(groups[..]))
  {
    hide KeptGroups, ManagedInGroups, StripGroup, ManagedInGroup;
    kept, removed := 0, 0;
    NoGroups();
    ghost var was := groups[..];
    for i := 0 to groups.Length
      invariant kept <= i
      invariant groups[..kept] == KeptGroups(was[..i])
      invariant removed == ManagedInGroups(was[..i])
      invariant forall k :: i <= k < groups.Length ==> groups[k] == was[k]
    {
      var group := groups[i];
      assert was[..i + 1] == was[..i] + [group];
      SnocGroup(was[..i], group);
      StripCounts(group);
      var cleaned, count, keep := StripManagedHooks(group);
      removed := removed + count;
      if keep {
        groups[kept] := cleaned;
        kept := kept + 1;
      }
    }
    assert was[..groups.Length] == was;
  }

  // ----- totals over the whole table -----

  ghost function Total(hooks: Hooks, events: set<Key>): nat
    requires events <= hooks.Keys
  {
    if events == {} then 0
    else
      var e :| e in events;
      ManagedInGroups(hooks[e]) + Total(hooks, events - {e})
  }

  lemma TotalNone(hooks: Hooks)
    ensures Total(hooks, {}) == 0
  {
  }

  lemma TotalPicksOne(hooks: Hooks, events: set<Key>) returns (first: Key)
    requires events <= hooks.Keys && events != {}
    ensures first in events && Total(hooks, events) == ManagedInGroups(hooks[first]) + Total(hooks, events - {first})
  {
    hide ManagedInGroups;
    first :| first in events && Total(hooks, events) == ManagedInGroups(hooks[first]) + Total(hooks, events - {first});
  }

  lemma {:induction false} TotalWithout(hooks: Hooks, events: set<Key>, e: Key)
    requires events <= hooks.Keys && e in events
    ensures Total(hooks, events) == ManagedInGroups(hooks[e]) + Total(hooks, events - {e})
    decreases |events|
  {
    hide ManagedInGroups, Total;
    var first := TotalPicksOne(hooks, events);
    if first != e {
      TotalWithout(hooks, events - {first}, e);
      TotalWithout(hooks, events - {e}, first);
      assert events - {first} - {e} == events - {e} - {first};
    }
  }

  /** Clears the table event by event, in whatever order the map yields them. */
  method RemoveManagedHooks(hooks: Hooks) returns (cleaned: Hooks, removed: nat)
    ensures cleaned == RemoveManaged(hooks)
    ensures removed == Total(hooks, hooks.Keys)
  {
    hide KeptGroups, ManagedInGroups, Total;
    TotalNone(hooks);
    cleaned, removed := hooks, 0;
    var todo := hooks.Keys;
    assert hooks.Keys - todo == {};
    while todo != {}
      invariant todo <= hooks.Keys
      invariant todo <= cleaned.Keys <= hooks.Keys
      invariant forall e :: e in todo ==> cleaned[e] == hooks[e]
      invariant forall e :: e in hooks.Keys - todo ==>
                  (e in cleaned <==> KeptGroups(hooks[e]) != []) && (e in cleaned ==> cleaned[e] == KeptGroups(hooks[e]))
      invariant removed == Total(hooks, hooks.Keys - todo)
    {
      var event :| event in todo;
      var list := cleaned[event];
      var groups := new Json[|list|](i requires 0 <= i < |list| => list[i]);
      assert groups[..] == list;
      var kept, count := FilterGroups(groups);
      TotalWithout(hooks, hooks.Keys - (todo - {event}), event);
      assert hooks.Keys - (todo - {event}) - {event} == hooks.Keys - todo;
      removed := removed + count;
      if kept == 0 {
        cleaned := cleaned - {event};
      } else {
        cleaned := cleaned[event := groups[..kept]];
      }
      todo := todo - {event};
    }
    assert hooks.Keys - todo == hooks.Keys;
    assert cleaned.Keys == RemoveManaged(hooks).Keys;
  }

  /** Each of the listed events carries exactly one managed handler and no other event carries any. */
  predicate CompleteLayout(hooks: Hooks, events: seq<Key>) {
    && (forall e :: e in events ==> e in hooks && ManagedInGroups(hooks[e]) == 1)
    && (forall e :: e in hooks && e !in events ==> ManagedInGroups(hooks[e]) == 0)
  }

  predicate NoneManaged(hooks: Hooks) {
    forall e :: e in hooks ==> ManagedInGroups(hooks[e]) == 0
  }

  lemma {:induction false} TotalZero(hooks: Hooks, events: set<Key>)
    requires events <= hooks.Keys
    ensures Total(hooks, events) == 0 <==> forall e :: e in events ==> ManagedInGroups(hooks[e]) == 0
  {
    if events != {} {
      var e :| e in events;
      TotalWithout(hooks, events, e);
      TotalZero(hooks, events - {e});
    }
  }

  function PerEvent(hooks: Hooks, e: Key): nat {
    if e in hooks then ManagedInGroups(hooks[e]) else 0
  }

  lemma HookEventsDistinct()
    ensures Distinct(HOOK_EVENTS)
  {
  }

  /** The sum over a table in which each listed event counts one: their number, plus the rest. */
  lemma {:induction false} TotalOfListed(hooks: Hooks, events: seq<Key>)
    requires Distinct(events)
    requires forall e :: e in events ==> PerEvent(hooks, e) == 1
    ensures Elements(events) <= hooks.Keys
    ensures Total(hooks, hooks.Keys) == |events| + Total(hooks, hooks.Keys - Elements(events))
  {
    if events == [] {
      assert hooks.Keys - Elements(events) == hooks.Keys;
    } else {
      var e, rest := events[|events| - 1], events[..|events| - 1];
      assert PerEvent(hooks, e) == 1;
      TotalOfListed(hooks, rest);
      assert Elements(events) == Elements(rest) + {e};
      TotalWithout(hooks, hooks.Keys - Elements(rest), e);
      assert hooks.Keys - Elements(rest) - {e} == hooks.Keys - Elements(events);
    }
  }

  method ManagedInList(groups: seq<Json>) returns (count: nat)
    ensures count == ManagedInGroups(groups)
  {
    count := 0;
    for i := 0 to |groups|
      invariant count == ManagedInGroups(groups[..i])
    {
      assert groups[..i + 1][..i] == groups[..i];
      var _, managed, _ := StripManagedHooks(groups[i]);
      count := count + managed;
    }
    assert groups[..|groups|] == groups;
  }

  /** The managed handlers of each event, and of all, in whatever order the map yields the events. */
  method CountManaged(hooks: Hooks) returns (count: nat, perEvent: map<Key, nat>)
    ensures perEvent.Keys == hooks.Keys && forall e :: e in perEvent ==> perEvent[e] == ManagedInGroups(hooks[e])
    ensures count == Total(hooks, hooks.Keys)
  {
    hide Total, ManagedInGroups;
    count, perEvent := 0, map[];
    TotalNone(hooks);
    var todo := hooks.Keys;
    assert hooks.Keys - todo == {};
    while todo != {}
      invariant todo <= hooks.Keys && perEvent.Keys == hooks.Keys - todo
      invariant forall e :: e in perEvent ==> perEvent[e] == ManagedInGroups(hooks[e])
      invariant count == Total(hooks, hooks.Keys - todo)
    {
      var event :| event in todo;
      TotalWithout(hooks, hooks.Keys - (todo - {event}), event);
      assert hooks.Keys - (todo - {event}) - {event} == hooks.Keys - todo;
      var here := ManagedInList(hooks[event]);
      count, perEvent := count + here, perEvent[event := here];
      todo := todo - {event};
    }
    assert hooks.Keys - todo == hooks.Keys;
  }

  method ManagedHookLayout(hooks: Hooks, events: seq<Key>) returns (count: nat, complete: bool)
    requires Distinct(events)
    ensures count == Total(hooks, hooks.Keys)
    ensures count == 0 <==> NoneManaged(hooks)
    ensures complete <==> CompleteLayout(hooks, events)
  {
    hide Total, ManagedInGroups, CompleteLayout;
    var perEvent;
    count, perEvent := CountManaged(hooks);
    TotalZero(hooks, hooks.Keys);
    complete := count == |events|;
    for i := 0 to |events|
      invariant complete <==> count == |events| && forall k :: 0 <= k < i ==> PerEvent(hooks, events[k]) == 1
    {
      complete := complete && (if events[i] in perEvent then perEvent[events[i]] else 0) == 1;
    }
    CompleteLayoutByCount(hooks, events);
  }

  lemma CompleteLayoutByCount(hooks: Hooks, events: seq<Key>)
    requires Distinct(events)
    ensures CompleteLayout(hooks, events) <==>
            Total(hooks, hooks.Keys) == |events| && forall e :: e in events ==> PerEvent(hooks, e) == 1
  {
    if forall e :: e in events ==> PerEvent(hooks, e) == 1 {
      TotalOfListed(hooks, events);
      TotalZero(hooks, hooks.Keys - Elements(events));
      assert forall e :: e in events <==> e in Elements(events);
    } else {
      var e :| e in events && PerEvent(hooks, e) != 1;
      assert !CompleteLayout(hooks, events);
    }
  }

  // ----- merge and remove -----

  /** quotePOSIX: single quotes, each inner single quote spelled out. */
  function EscapeQuotes(value: string): string {
    if value == "" then ""
    else (if value[0] == '\'' then "'\"'\"'" else [value[0]]) + EscapeQuotes(value[1..])
  }

  function QuotePosix(value: string): string {
    "'" + EscapeQuotes(value) + "'"
  }

  function ManagedCommand(binaryPath: string): string {
    QuotePosix(binaryPath) + " --aav-install-id " + QuotePosix(INSTALL_ID)
  }

  predicate SupportedPath(binaryPath: string) {
    '\0' !in binaryPath && '\r' !in binaryPath && '\n' !in binaryPath && '"' !in binaryPath
  }

  function ManagedHandler(binaryPath: string): Json {
    Obj(map[
      TypeKey := Str("command"),
      CommandKey := Str(ManagedCommand(binaryPath)),
      CommandWindowsKey := Str("\"" + binaryPath + "\"" + " --aav-install-id \"" + INSTALL_ID + "\""),
      TimeoutKey := Other("1"),
      StatusMessageKey := Str(STATUS_LABEL)])
  }

  function ManagedGroup(binaryPath: string): Json {
    Obj(map[HooksKey := Arr([ManagedHandler(binaryPath)])])
  }

  function GroupsFor(hooks: Hooks, event: Key): seq<Json> {
    if event in hooks then hooks[event] else []
  }

  /** The table with one more group at the end of each listed event. */
  function WithGroup(hooks: Hooks, group: Json, events: seq<Key>): Hooks {
    map e | e in hooks.Keys + Elements(events) ::
      if e in events then GroupsFor(hooks, e) + [group] else GroupsFor(hooks, e)
  }

  /** mergeHooks on the parsed document. */
  function Merge(root: Root, binaryPath: string, events: seq<Key>): Result<Root> {
    match DecodeHooks(root)
    case Err(message) => Err(message)
    case Ok(hooks) =>
      if !SupportedPath(binaryPath) then Err("unsupported hook binary path")
      else Ok(root[HooksKey := EncodeHooks(WithGroup(RemoveManaged(hooks), ManagedGroup(binaryPath), events))])
  }

  /** removeHooks on the parsed document. */
  function Remove(root: Root): Result<Root> {
    match DecodeHooks(root)
    case Err(message) => Err(message)
    case Ok(hooks) =>
      var cleaned := RemoveManaged(hooks);
      if cleaned == map[] && HooksKey !in root then Ok(root)
      else Ok(root[HooksKey := EncodeHooks(cleaned)])
  }

  method AddGroup(start: Hooks, group: Json, events: seq<Key>) returns (hooks: Hooks)
    requires Distinct(events)
    ensures hooks == WithGroup(start, group, events)
  {
    hide WithGroup, GroupsFor;
    hooks := start;
    NoneWithGroup(start, group);
    for i := 0 to |events|
      invariant hooks == WithGroup(start, group, events[..i])
    {
      var event := events[i];
      assert event !in events[..i];
      assert events[..i + 1] == events[..i] + [event];
      OneMoreWithGroup(start, group, events[..i], event);
      hooks := hooks[event := GroupsFor(hooks, event) + [group]];
    }
    assert events[..|events|] == events;
  }

  lemma NoneWithGroup(hooks: Hooks, group: Json)
    ensures WithGroup(hooks, group, []) == hooks
  {
  }

  lemma GroupsForOther(hooks: Hooks, group: Json, events: seq<Key>, e: Key)
    requires e !in events
    ensures GroupsFor(WithGroup(hooks, group, events), e) == GroupsFor(hooks, e)
  {
  }

  lemma OneMoreWithGroup(hooks: Hooks, group: Json, events: seq<Key>, e: Key)
    requires e !in events
    ensures var w := WithGroup(hooks, group, events);
            WithGroup(hooks, group, events + [e]) == w[e := GroupsFor(w, e) + [group]]
  {
    hide GroupsFor;
    GroupsForOther(hooks, group, events, e);
    var w, v := WithGroup(hooks, group, events), WithGroup(hooks, group, events + [e]);
    var grown := w[e := GroupsFor(w, e) + [group]];
    ElementsSnoc(events, e);
    assert v.Keys == grown.Keys;
    forall k | k in v ensures v[k] == grown[k] {
      assert k in events + [e] <==> k in events || k == e;
    }
  }

  method MergeHooks(root: Root, binaryPath: string, events: seq<Key>) returns (merged: Result<Root>, removed: nat)
    requires Distinct(events)
    ensures merged == Merge(root, binaryPath, events)
    ensures merged.Ok? ==> DecodeHooks(root).Ok? && removed == Total(DecodeHooks(root).value, DecodeHooks(root).value.Keys)
  {
    var decoded := DecodeHooks(root);
    if decoded.Err? {
      return Err(decoded.message), 0;
    }
    var hooks;
    hooks, removed := RemoveManagedHooks(decoded.value);
    if !SupportedPath(binaryPath) {
      return Err("unsupported hook binary path"), 0;
    }
    hooks := AddGroup(hooks, ManagedGroup(binaryPath), events);
    merged := Ok(root[HooksKey := EncodeHooks(hooks)]);
  }

  method RemoveHooks(root: Root) returns (cleaned: Result<Root>, removed: nat)
    ensures cleaned == Remove(root)
    ensures cleaned.Ok? ==> DecodeHooks(root).Ok? && removed == Total(DecodeHooks(root).value, DecodeHooks(root).value.Keys)
    ensures cleaned.Ok? ==> (removed == 0 <==> NoneManaged(DecodeHooks(root).value))
  {
    var decoded := DecodeHooks(root);
    if decoded.Err? {
      return Err(decoded.message), 0;
    }
    var hooks;
    hooks, removed := RemoveManagedHooks(decoded.value);
    TotalZero(decoded.value, decoded.value.Keys);
    var hooksExisted := HooksKey in root;
    if |hooks| == 0 {
      if hooksExisted {
        cleaned := Ok(root[HooksKey := Obj(map[])]);
        assert EncodeHooks(hooks) == Obj(map[]);
      } else {
        cleaned := Ok(root);
      }
    } else {
      cleaned := Ok(root[HooksKey := EncodeHooks(hooks)]);
    }
  }

  /** onlyEmptyHooks: the only key may be any key at all, as long as no hook event survives. */
  predicate OnlyEmptyHooks(root: Root) {
    |root| == 1 && DecodeHooks(root) == Ok(map[])
  }

  // ----- laws -----

  lemma EscapeKeepsPlain(value: string)
    requires '\'' !in value
    ensures EscapeQuotes(value) == value
  {
  }

  lemma QuotedAtEnd(head: string, id: string)
    requires '\'' !in id
    ensures Contains(head + QuotePosix(id), id)
  {
    EscapeKeepsPlain(id);
    assert MatchesAt(head + QuotePosix(id), id, |head| + 1);
  }

  lemma InstallIdIsPlain()
    ensures '\'' !in INSTALL_ID
  {
  }

  lemma CommandHasInstallId(binaryPath: string)
    ensures Contains(ManagedCommand(binaryPath), INSTALL_ID)
  {
    InstallIdIsPlain();
    QuotedAtEnd(QuotePosix(binaryPath) + " --aav-install-id ", INSTALL_ID);
  }

  lemma ManagedHandlerIsManaged(binaryPath: string)
    ensures IsManaged(ManagedHandler(binaryPath))
  {
    hide Contains, ManagedCommand;
    CommandHasInstallId(binaryPath);
    assert ManagedHandler(binaryPath).fields[CommandKey] == Str(ManagedCommand(binaryPath));
    assert ManagedHandler(binaryPath).fields[StatusMessageKey] == Str(STATUS_LABEL);
  }

  /** A group holding managed handlers only, one of them. */
  predicate IsManagedGroup(group: Json) {
    ManagedInGroup(group) == 1 && Unmanaged(Handlers(group)) == []
  }

  lemma ManagedGroupIsManaged(binaryPath: string)
    ensures Handlers(ManagedGroup(binaryPath)) == [ManagedHandler(binaryPath)]
    ensures IsManagedGroup(ManagedGroup(binaryPath))
  {
    hide IsManaged, ManagedHandler;
    ManagedHandlerIsManaged(binaryPath);
    UnmanagedOfManaged(ManagedHandler(binaryPath));
  }

  lemma UnmanagedOfManaged(handler: Json)
    requires IsManaged(handler)
    ensures Unmanaged([handler]) == []
  {
    assert [handler][..0] == [];
  }

  lemma {:induction false} KeptGroupsClean(groups: seq<Json>)
    ensures ManagedInGroups(KeptGroups(groups)) == 0
  {
    if groups != [] {
      var init, g := groups[..|groups| - 1], groups[|groups| - 1];
      assert groups == init + [g];
      SnocGroup(init, g);
      KeptGroupsClean(init);
      if StripGroup(g).keep {
        StripGroupClean(g);
        SnocGroup(KeptGroups(init), StripGroup(g).group);
      }
    }
  }

  lemma {:induction false} KeptGroupsHandlers(groups: seq<Json>)
    ensures AllHandlers(KeptGroups(groups)) == Unmanaged(AllHandlers(groups))
  {
    if groups != [] {
      var init, g := groups[..|groups| - 1], groups[|groups| - 1];
      assert groups == init + [g];
      SnocGroup(init, g);
      KeptGroupsHandlers(init);
      UnmanagedConcat(AllHandlers(init), Handlers(g));
      if StripGroup(g).keep {
        StripGroupClean(g);
        SnocGroup(KeptGroups(init), StripGroup(g).group);
      } else {
        assert Unmanaged(Handlers(g)) == [];
        assert Unmanaged(AllHandlers(init)) + [] == Unmanaged(AllHandlers(init));
      }
    }
  }

  lemma StripGroupClean(g: Json)
    requires StripGroup(g).keep
    ensures Handlers(StripGroup(g).group) == Unmanaged(Handlers(g))
    ensures ManagedInGroup(StripGroup(g).group) == 0
  {
    UnmanagedIsShorter(Handlers(g));
    UnmanagedFixed(Unmanaged(Handlers(g)));
  }

  lemma {:induction false} KeptGroupsFixed(groups: seq<Json>)
    requires ManagedInGroups(groups) == 0
    ensures KeptGroups(groups) == groups
  {
    if groups != [] {
      KeptGroupsFixed(groups[..|groups| - 1]);
    }
  }

  lemma SnocGroup(groups: seq<Json>, g: Json)
    ensures ManagedInGroups(groups + [g]) == ManagedInGroups(groups) + ManagedInGroup(g)
    ensures AllHandlers(groups + [g]) == AllHandlers(groups) + Handlers(g)
    ensures KeptGroups(groups + [g]) == if StripGroup(g).keep then KeptGroups(groups) + [StripGroup(g).group] else KeptGroups(groups)
  {
    assert (groups + [g])[..|groups + [g]| - 1] == groups;
    assert KeptGroups(groups) + [] == KeptGroups(groups);
  }

  lemma RemoveManagedClean(hooks: Hooks)
    ensures NoneManaged(RemoveManaged(hooks))
    ensures RemoveManaged(RemoveManaged(hooks)) == RemoveManaged(hooks)
  {
    forall e | e in RemoveManaged(hooks)
      ensures ManagedInGroups(RemoveManaged(hooks)[e]) == 0 && KeptGroups(RemoveManaged(hooks)[e]) == RemoveManaged(hooks)[e]
    {
      KeptGroupsClean(hooks[e]);
      KeptGroupsFixed(RemoveManaged(hooks)[e]);
    }
    assert RemoveManaged(RemoveManaged(hooks)).Keys == RemoveManaged(hooks).Keys;
  }

  lemma AddGroupEffect(groups: seq<Json>, group: Json)
    requires ManagedInGroups(groups) == 0 && IsManagedGroup(group)
    ensures KeptGroups(groups + [group]) == groups == KeptGroups(groups)
    ensures ManagedInGroups(groups + [group]) == 1
    ensures Unmanaged(AllHandlers(groups + [group])) == Unmanaged(AllHandlers(groups))
  {
    KeptGroupsFixed(groups);
    SnocGroup(groups, group);
    UnmanagedConcat(AllHandlers(groups), Handlers(group));
    assert Unmanaged(AllHandlers(groups)) + [] == Unmanaged(AllHandlers(groups));
  }

  lemma RemoveAfterAdd(clean: Hooks, group: Json, events: seq<Key>)
    requires NoneManaged(clean) && IsManagedGroup(group)
    requires forall e :: e in clean ==> clean[e] != []
    ensures RemoveManaged(WithGroup(clean, group, events)) == clean
  {
    hide ManagedInGroup, IsManagedGroup;
    var w := WithGroup(clean, group, events);
    forall e | e in w ensures KeptGroups(w[e]) == GroupsFor(clean, e) {
      AddGroupEffect(GroupsFor(clean, e), group);
    }
    assert RemoveManaged(w).Keys == clean.Keys;
  }

  lemma DecodeMerge(root: Root, binaryPath: string, events: seq<Key>)
    requires Merge(root, binaryPath, events).Ok?
    ensures DecodeHooks(root).Ok?
    ensures DecodeHooks(Merge(root, binaryPath, events).value) == Ok(WithGroup(RemoveManaged(DecodeHooks(root).value), ManagedGroup(binaryPath), events))
    ensures forall j {:trigger root[HooksKey := j]} :: Merge(root, binaryPath, events).value[HooksKey := j] == root[HooksKey := j]
  {
    hide StripGroup, KeptGroups, ManagedGroup;
    DecodeEncode(root, WithGroup(RemoveManaged(DecodeHooks(root).value), ManagedGroup(binaryPath), events));
  }

  lemma RemoveAfterMergeHooks(root: Root, binaryPath: string, events: seq<Key>)
    requires Merge(root, binaryPath, events).Ok?
    ensures DecodeHooks(root).Ok? && DecodeHooks(Merge(root, binaryPath, events).value).Ok?
    ensures RemoveManaged(DecodeHooks(Merge(root, binaryPath, events).value).value) == RemoveManaged(DecodeHooks(root).value)
  {
    DecodeMerge(root, binaryPath, events);
    ManagedGroupIsManaged(binaryPath);
    RemoveManagedClean(DecodeHooks(root).value);
    RemoveAfterAdd(RemoveManaged(DecodeHooks(root).value), ManagedGroup(binaryPath), events);
  }

  /** Merging twice is merging once, even with another binary path in between. */
  lemma MergeIdempotent(root: Root, first: string, second: string, events: seq<Key>)
    requires Merge(root, first, events).Ok? && SupportedPath(second)
    ensures Merge(Merge(root, first, events).value, second, events) == Merge(root, second, events)
  {
    DecodeMerge(root, first, events);
    RemoveAfterMergeHooks(root, first, events);
  }

  /** After a merge every listed event has exactly one managed handler and nothing else has one. */
  lemma MergeIsComplete(root: Root, binaryPath: string, events: seq<Key>)
    requires Merge(root, binaryPath, events).Ok?
    ensures DecodeHooks(Merge(root, binaryPath, events).value).Ok?
    ensures CompleteLayout(DecodeHooks(Merge(root, binaryPath, events).value).value, events)
  {
    DecodeMerge(root, binaryPath, events);
    RemoveManagedClean(DecodeHooks(root).value);
    ManagedGroupIsManaged(binaryPath);
    AddGroupCompletes(RemoveManaged(DecodeHooks(root).value), ManagedGroup(binaryPath), events);
  }

  lemma AddGroupCompletes(clean: Hooks, group: Json, events: seq<Key>)
    requires NoneManaged(clean) && IsManagedGroup(group)
    ensures CompleteLayout(WithGroup(clean, group, events), events)
  {
    var w := WithGroup(clean, group, events);
    forall e | e in w ensures ManagedInGroups(w[e]) == if e in events then 1 else 0 {
      AddGroupEffect(GroupsFor(clean, e), group);
    }
  }

  /** Removing leaves nothing managed. */
  lemma RemoveIsClean(root: Root)
    requires Remove(root).Ok?
    ensures DecodeHooks(Remove(root).value).Ok?
    ensures NoneManaged(DecodeHooks(Remove(root).value).value)
  {
    RemoveManagedClean(DecodeHooks(root).value);
    DecodeEncode(root, RemoveManaged(DecodeHooks(root).value));
  }

  /** Removing undoes a merge, up to a hooks object where there was none. */
  lemma RemoveAfterMerge(root: Root, binaryPath: string, events: seq<Key>)
    requires Merge(root, binaryPath, events).Ok?
    ensures Remove(Merge(root, binaryPath, events).value).Ok? && Remove(root).Ok?
    ensures Remove(Merge(root, binaryPath, events).value).value ==
            if HooksKey in root then Remove(root).value else Remove(root).value[HooksKey := Obj(map[])]
    ensures Remove(Merge(root, binaryPath, events).value).value == root[HooksKey := EncodeHooks(RemoveManaged(DecodeHooks(root).value))]
  {
    DecodeMerge(root, binaryPath, events);
    RemoveAfterMergeHooks(root, binaryPath, events);
    EncodeEmpty();
    assert HooksKey !in root ==> RemoveManaged(DecodeHooks(root).value) == map[];
  }

  lemma EncodeEmpty()
    ensures EncodeHooks(map[]) == Obj(map[])
  {
    assert EncodeHooks(map[]).fields == map[];
  }

  /** Merging keeps every unmanaged handler, in order, and every other root key. */
  lemma UnmanagedSurviveMerge(root: Root, binaryPath: string, events: seq<Key>, event: Key)
    requires Merge(root, binaryPath, events).Ok?
    ensures DecodeHooks(Merge(root, binaryPath, events).value).Ok?
    ensures Unmanaged(AllHandlers(GroupsFor(DecodeHooks(Merge(root, binaryPath, events).value).value, event))) ==
            Unmanaged(AllHandlers(GroupsFor(DecodeHooks(root).value, event)))
    ensures Merge(root, binaryPath, events).value - {HooksKey} == root - {HooksKey}
  {
    hide StripGroup, KeptGroups, ManagedGroup, ManagedHandler, IsManagedGroup, AllHandlers, Unmanaged;
    DecodeMerge(root, binaryPath, events);
    ManagedGroupIsManaged(binaryPath);
    MergedGroupsKeepUnmanaged(DecodeHooks(root).value, ManagedGroup(binaryPath), events, event);
  }

  lemma MergedGroupsKeepUnmanaged(hooks: Hooks, group: Json, events: seq<Key>, event: Key)
    requires IsManagedGroup(group)
    ensures Unmanaged(AllHandlers(GroupsFor(WithGroup(RemoveManaged(hooks), group, events), event))) ==
            Unmanaged(AllHandlers(GroupsFor(hooks, event)))
  {
    hide StripGroup, ManagedInGroup, IsManagedGroup, AllHandlers, Unmanaged;
    var groups := GroupsFor(hooks, event);
    var kept := KeptGroups(groups);
    assert GroupsFor(RemoveManaged(hooks), event) == kept;
    KeptGroupsClean(groups);
    KeptGroupsHandlers(groups);
    UnmanagedIsShorter(AllHandlers(groups));
    UnmanagedFixed(AllHandlers(kept));
    AddGroupEffect(kept, group);
  }

  /** Removing keeps exactly the unmanaged handlers, in order, and every other root key. */
  lemma UnmanagedSurviveRemove(root: Root, event: Key)
    requires Remove(root).Ok?
    ensures DecodeHooks(Remove(root).value).Ok?
    ensures AllHandlers(GroupsFor(DecodeHooks(Remove(root).value).value, event)) ==
            Unmanaged(AllHandlers(GroupsFor(DecodeHooks(root).value, event)))
    ensures Remove(root).value - {HooksKey} == root - {HooksKey}
  {
    var hooks := DecodeHooks(root).value;
    DecodeEncode(root, RemoveManaged(hooks));
    KeptGroupsHandlers(GroupsFor(hooks, event));
    assert GroupsFor(RemoveManaged(hooks), event) == KeptGroups(GroupsFor(hooks, event));
  }

  /** A document the installer can give back exactly: a hooks object, no empty event list, nothing managed. */
  predicate Restorable(root: Root) {
    && HooksKey in root && root[HooksKey].Obj?
    && (forall e :: e in root[HooksKey].fields ==> root[HooksKey].fields[e].Arr? && root[HooksKey].fields[e].items != [])
    && DecodeHooks(root).Ok? && NoneManaged(DecodeHooks(root).value)
  }

  lemma NothingToRemove(hooks: Hooks)
    requires NoneManaged(hooks) && forall e :: e in hooks ==> hooks[e] != []
    ensures RemoveManaged(hooks) == hooks
  {
    forall e | e in hooks ensures KeptGroups(hooks[e]) == hooks[e] {
      KeptGroupsFixed(hooks[e]);
    }
    assert RemoveManaged(hooks).Keys == hooks.Keys;
  }

  lemma EncodeDecode(root: Root)
    requires HooksKey in root && root[HooksKey].Obj? && DecodeHooks(root).Ok?
    requires forall e :: e in root[HooksKey].fields ==> root[HooksKey].fields[e].Arr?
    ensures EncodeHooks(DecodeHooks(root).value) == root[HooksKey]
    ensures forall e :: e in DecodeHooks(root).value ==> e in root[HooksKey].fields && DecodeHooks(root).value[e] == root[HooksKey].fields[e].items
  {
    assert EncodeHooks(DecodeHooks(root).value).fields == root[HooksKey].fields;
  }

  /** Merge followed by remove gives the document back exactly when it is restorable. */
  lemma MergeRemoveRestoresIff(root: Root, binaryPath: string, events: seq<Key>)
    requires Merge(root, binaryPath, events).Ok?
    ensures Remove(Merge(root, binaryPath, events).value) == Ok(root) <==> Restorable(root)
  {
    hide StripGroup, KeptGroups, ManagedGroup, WithGroup;
    RemoveAfterMerge(root, binaryPath, events);
    var clean := RemoveManaged(DecodeHooks(root).value);
    var back := Remove(Merge(root, binaryPath, events).value).value;
    RemoveManagedClean(DecodeHooks(root).value);
    if Restorable(root) {
      EncodeDecode(root);
      NothingToRemove(DecodeHooks(root).value);
    }
    if back == root {
      assert root[HooksKey] == EncodeHooks(clean);
      DecodeEncode(root, clean);
    }
  }

  /** A document with a single key that is not a hooks object counts as holding only empty hooks. */
  lemma OnlyEmptyHooksIff(root: Root)
    ensures OnlyEmptyHooks(root) <==>
            |root| == 1 && (HooksKey in root ==> root[HooksKey].Null? || root[HooksKey] == Obj(map[]))
  {
    if HooksKey in root && root[HooksKey].Obj? {
      var fields := root[HooksKey].fields;
      if DecodeHooks(root).Ok? {
        assert DecodeHooks(root).value.Keys == fields.Keys;
        assert fields == map[] <==> fields.Keys == {};
      } else {
        assert fields != map[];
      }
    }
  }
}
