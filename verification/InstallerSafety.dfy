/**
 What every run of install and uninstall keeps, wherever the runs crash or fail, and which
 reruns complete.
 */
module InstallerSafety {
  import opened Common
  import opened HookConfig
  import opened SwapFiles
  import opened Installer

  /** What recovery would find under each of the four paths. */
  datatype Seen = Seen(config: Option<Content>, state: Option<Content>, backup: Option<Content>, binary: Option<Content>)

  function SeenOf(files: Files): Seen {
    Seen(View(files, ConfigPath), View(files, StatePath), View(files, BackupPath), View(files, BinaryPath))
  }

  function Put(s: Seen, path: Path, content: Option<Content>): Seen {
    match path
    case ConfigPath => s.(config := content)
    case StatePath => s.(state := content)
    case BackupPath => s.(backup := content)
    case BinaryPath => s.(binary := content)
  }

  // ----- the file laws on what is seen -----

  lemma SeenPut(before: Files, after: Files, path: Path)
    requires SameOutside(before, after, path)
    ensures SeenOf(after) == Put(SeenOf(before), path, View(after, path))
    ensures forall q :: q != path ==> (Swap(q) in before <==> Swap(q) in after)
  {
    forall q | q != path
      ensures View(before, q) == View(after, q) && (Swap(q) in before <==> Swap(q) in after)
    {
      assert At(before, Main(q)) == At(after, Main(q)) && At(before, Swap(q)) == At(after, Swap(q));
    }
  }

  lemma WriteSeen(w: World, path: Path, content: Content)
    ensures var r := AtomicWrite(w, path, content);
            && (SeenOf(r.world.files) == SeenOf(w.files) || SeenOf(r.world.files) == Put(SeenOf(w.files), path, Some(content)))
            && (r.ok ==> SeenOf(r.world.files) == Put(SeenOf(w.files), path, Some(content)))
            && (r.ok ==> At(r.world.files, Main(path)) == Some(content))
            && (forall q :: q != path ==> (Swap(q) in w.files <==> Swap(q) in r.world.files))
            && (View(w.files, path) == None ==> Swap(path) !in r.world.files)
            && (FaultFree(w) ==> r.ok && FaultFree(r.world) && Swap(path) !in r.world.files)
  {
    hide AtomicWrite, SameOutside;
    AtomicWriteLaw(w, path, content);
    SeenPut(w.files, AtomicWrite(w, path, content).world.files, path);
  }

  lemma RemoveSeen(w: World, path: Path)
    requires Swap(path) !in w.files
    ensures var r := RemoveIfExists(w, path);
            && SeenOf(r.world.files) == (if r.ok then Put(SeenOf(w.files), path, None) else SeenOf(w.files))
            && (forall q :: Swap(q) in w.files <==> Swap(q) in r.world.files)
            && (FaultFree(w) ==> r.ok && FaultFree(r.world))
  {
    hide RemoveIfExists, SameOutside;
    RemoveLaw(w, path);
    SeenPut(w.files, RemoveIfExists(w, path).world.files, path);
  }

  lemma RecoverSeen(w: World, path: Path)
    ensures var r := RecoverSwap(w, path);
            && SeenOf(r.world.files) == SeenOf(w.files)
            && (r.ok ==> Swap(path) !in r.world.files)
            && (forall q :: q != path ==> (Swap(q) in w.files <==> Swap(q) in r.world.files))
            && (Swap(path) !in w.files ==> r.world == w)
            && (FaultFree(w) ==> r.ok && FaultFree(r.world))
  {
    hide RecoverSwap, SameOutside;
    RecoverSwapLaw(w, path);
    SeenPut(w.files, RecoverSwap(w, path).world.files, path);
  }

  lemma RecoverTargetSeen(w: World)
    ensures var r := RecoverTarget(w);
            && SeenOf(r.world.files) == SeenOf(w.files)
            && (r.ok ==> NoSwap(r.world.files))
            && (FaultFree(w) ==> r.ok && FaultFree(r.world))
  {
    hide RecoverSwap, SeenOf;
    var a := RecoverSwap(w, ConfigPath);
    RecoverSeen(w, ConfigPath);
    if a.ok {
      var b := RecoverSwap(a.world, StatePath);
      RecoverSeen(a.world, StatePath);
      if b.ok {
        var c := RecoverSwap(b.world, BackupPath);
        RecoverSeen(b.world, BackupPath);
        if c.ok {
          RecoverSeen(c.world, BinaryPath);
        }
      }
    }
  }

  /** With no swap file about, what is seen is what the files hold. */
  lemma SeenIsMain(files: Files)
    requires NoSwap(files)
    ensures At(files, Main(ConfigPath)) == SeenOf(files).config
    ensures At(files, Main(StatePath)) == SeenOf(files).state
    ensures At(files, Main(BackupPath)) == SeenOf(files).backup
    ensures At(files, Main(BinaryPath)) == SeenOf(files).binary
  {
  }

  // ----- the invariant -----

  /** An installation target and the hooks.json it started from. */
  datatype Setup = Setup(target: Target, original: Option<Content>)

  function OriginalRoot(s: Setup): Root
    requires GoodSetup(s)
  {
    if s.original.None? then map[] else ParseRoot(s.original.value).value
  }

  predicate IsUnmanaged(root: Root) {
    DecodeHooks(root).Ok? && NoneManaged(DecodeHooks(root).value)
  }

  /** The original is absent, or any document the installer can merge into that holds nothing managed. */
  predicate GoodSetup(s: Setup) {
    && SupportedPath(s.target.binaryPath)
    && (s.original.Some? ==> ParseRoot(s.original.value).Some? && IsUnmanaged(ParseRoot(s.original.value).value))
  }

  /** The original is absent, or a document that can be given back exactly. */
  predicate Exact(s: Setup)
    requires GoodSetup(s)
  {
    s.original.Some? ==> Restorable(OriginalRoot(s))
  }

  /** The original with its hooks cleaned: what taking the managed handlers out of the merge leaves. */
  function CleanRoot(root: Root): Root
    requires DecodeHooks(root).Ok?
  {
    root[HooksKey := EncodeHooks(RemoveManaged(DecodeHooks(root).value))]
  }

  /** What uninstalling leaves in hooks.json. */
  function Left(s: Setup): Option<Content>
    requires GoodSetup(s)
  {
    if Exact(s) then s.original else Some(Print(CleanRoot(OriginalRoot(s))))
  }

  /** The setup once an installation has been taken off again: what it left is the original of the next one. */
  function NextSetup(s: Setup): Setup
    requires GoodSetup(s)
  {
    s.(original := Left(s))
  }

  function Merged(s: Setup): Content
    requires GoodSetup(s)
  {
    Print(Merge(OriginalRoot(s), s.target.binaryPath, HOOK_EVENTS).value)
  }

  predicate OwnRecord(s: Setup, r: Record) {
    && ValidRecord(r, s.target)
    && r.originalExists == s.original.Some?
    && r.originalDigest == s.original
    && r.backup == if s.original.Some? then Some(BackupPath) else None
  }

  predicate Safe(s: Setup, seen: Seen)
    requires GoodSetup(s)
  {
    && (seen.config == s.original || seen.config == Some(Merged(s)) || seen.config == Left(s))
    && (seen.state.Some? ==> seen.state.value.StateText? && OwnRecord(s, seen.state.value.record))
    && (seen.backup.Some? ==> s.original.Some? && seen.backup == s.original)
    && (seen.config != s.original ==> seen.state.Some?)
    && (seen.config == Some(Merged(s)) && s.original.Some? ==> seen.backup.Some?)
    && (seen.binary.Some? || seen.backup.Some? ==> seen.state.Some?)
  }

  /** The crash states no rerun leaves: the backup is gone, and the record says installed or the original is gone too. */
  predicate Stuck(s: Setup, seen: Seen) {
    && s.original.Some? && seen.backup.None?
    && seen.state.Some? && seen.state.value.StateText?
    && (seen.state.value.record.phase == Installed || seen.config != s.original)
  }

  // ----- facts about the documents involved -----

  lemma OriginalFacts(s: Setup)
    requires GoodSetup(s)
    ensures Merge(OriginalRoot(s), s.target.binaryPath, HOOK_EVENTS).Ok?
    ensures Merge(Merge(OriginalRoot(s), s.target.binaryPath, HOOK_EVENTS).value, s.target.binaryPath, HOOK_EVENTS) ==
            Merge(OriginalRoot(s), s.target.binaryPath, HOOK_EVENTS)
    ensures IsUnmanaged(OriginalRoot(s))
    ensures ParseRoot(Merged(s)).Some? && DecodeHooks(ParseRoot(Merged(s)).value).Ok? && !IsUnmanaged(ParseRoot(Merged(s)).value)
    ensures CompleteLayout(DecodeHooks(ParseRoot(Merged(s)).value).value, HOOK_EVENTS)
    ensures s.original != Some(Merged(s)) && Left(s) != Some(Merged(s))
  {
    hide Merge, CompleteLayout, CleanRoot, Restorable;
    var root := OriginalRoot(s);
    EmptyIsUnmanaged();
    MergeTotal(root, s.target.binaryPath, HOOK_EVENTS);
    MergeIdempotent(root, s.target.binaryPath, s.target.binaryPath, HOOK_EVENTS);
    MergeIsComplete(root, s.target.binaryPath, HOOK_EVENTS);
    CompleteIsManaged(DecodeHooks(ParseRoot(Merged(s)).value).value);
    CleanFacts(root, s.target.binaryPath);
  }

  lemma EmptyIsUnmanaged()
    ensures IsUnmanaged(map[])
  {
  }

  /** Cleaning a document loses nothing a merge would keep, is done once, and gives a document that can be given back exactly. */
  lemma CleanFacts(root: Root, binaryPath: string)
    requires IsUnmanaged(root) && SupportedPath(binaryPath)
    ensures IsUnmanaged(CleanRoot(root)) && CleanRoot(root) != map[]
    ensures Merge(root, binaryPath, HOOK_EVENTS).Ok? && Merge(CleanRoot(root), binaryPath, HOOK_EVENTS) == Merge(root, binaryPath, HOOK_EVENTS)
    ensures Remove(Merge(root, binaryPath, HOOK_EVENTS).value) == Ok(CleanRoot(root)) == Remove(CleanRoot(root))
    ensures Restorable(CleanRoot(root)) && (Restorable(root) <==> CleanRoot(root) == root)
    ensures Remove(root) == Ok(if HooksKey in root then CleanRoot(root) else root)
  {
    hide RemoveManaged, ManagedGroup, NoneManaged, Restorable;
    var clean := RemoveManaged(DecodeHooks(root).value);
    assert HooksKey in CleanRoot(root);
    DecodeEncode(root, clean);
    RemoveManagedClean(DecodeHooks(root).value);
    assert CleanRoot(root)[HooksKey := EncodeHooks(clean)] == CleanRoot(root);
    MergeOfClean(root, binaryPath);
    RemoveAfterMerge(root, binaryPath, HOOK_EVENTS);
    MergeRemoveRestoresIff(root, binaryPath, HOOK_EVENTS);
    RemoveAfterMerge(CleanRoot(root), binaryPath, HOOK_EVENTS);
    MergeRemoveRestoresIff(CleanRoot(root), binaryPath, HOOK_EVENTS);
    if HooksKey !in root {
      RemoveWithoutHooks(root);
    }
  }

  lemma RemoveWithoutHooks(root: Root)
    requires HooksKey !in root
    ensures Remove(root) == Ok(root)
  {
    assert RemoveManaged(map[]) == map[];
  }

  lemma MergeOfClean(root: Root, binaryPath: string)
    requires DecodeHooks(root).Ok? && SupportedPath(binaryPath)
    ensures Merge(root, binaryPath, HOOK_EVENTS).Ok?
    ensures Merge(CleanRoot(root), binaryPath, HOOK_EVENTS) == Merge(root, binaryPath, HOOK_EVENTS)
  {
    hide RemoveManaged, ManagedGroup;
    var clean := RemoveManaged(DecodeHooks(root).value);
    DecodeEncode(root, clean);
    RemoveManagedClean(DecodeHooks(root).value);
    var hooks := EncodeHooks(WithGroup(clean, ManagedGroup(binaryPath), HOOK_EVENTS));
    assert CleanRoot(root)[HooksKey := hooks] == root[HooksKey := hooks];
  }

  /** An installation taken off leaves a setup of its own that can be given back exactly, with the same merge. */
  lemma NextSetupFacts(s: Setup)
    requires GoodSetup(s)
    ensures GoodSetup(NextSetup(s)) && Exact(NextSetup(s)) && Left(NextSetup(s)) == Left(s)
    ensures Merged(NextSetup(s)) == Merged(s)
    ensures Exact(s) <==> NextSetup(s) == s
  {
    hide Merge, Restorable, CleanRoot, IsUnmanaged, SupportedPath;
    OriginalFacts(s);
    CleanFacts(OriginalRoot(s), s.target.binaryPath);
  }

  lemma MergeTotal(root: Root, binaryPath: string, events: seq<Key>)
    requires DecodeHooks(root).Ok? && SupportedPath(binaryPath)
    ensures Merge(root, binaryPath, events).Ok?
  {
  }

  lemma CompleteIsManaged(hooks: Hooks)
    requires CompleteLayout(hooks, HOOK_EVENTS)
    ensures !NoneManaged(hooks)
  {
    assert HOOK_EVENTS[0] in HOOK_EVENTS;
    assert ManagedInGroups(hooks[HOOK_EVENTS[0]]) == 1;
  }

  /** Whatever a safe state holds, the installer would write the same merged document. */
  lemma DesiredIsMerged(s: Setup, files: Files)
    requires GoodSetup(s) && NoSwap(files) && Safe(s, SeenOf(files))
    ensures Desired(files, s.target) == Some(Merged(s))
  {
    hide Merge, Restorable, CleanRoot, IsUnmanaged, SupportedPath;
    SeenIsMain(files);
    OriginalFacts(s);
    CleanFacts(OriginalRoot(s), s.target.binaryPath);
  }

  // ----- each part keeps the invariant -----

  lemma EnsureBackupSafe(s: Setup, w: World, r: Record)
    requires GoodSetup(s) && NoSwap(w.files) && Safe(s, SeenOf(w.files)) && OwnRecord(s, r)
    requires SeenOf(w.files).state == Some(StateText(r))
    ensures var e := EnsureBackup(w, r);
            && NoSwap(e.world.files)
            && (SeenOf(e.world.files) == SeenOf(w.files) || SeenOf(e.world.files) == SeenOf(w.files).(backup := s.original))
            && Safe(s, SeenOf(e.world.files))
            && (e.ok && s.original.Some? ==> SeenOf(e.world.files).backup.Some?)
            && (e.ok ==> !Stuck(s, SeenOf(w.files)))
            && (FaultFree(w) && !Stuck(s, SeenOf(w.files)) ==> e.ok)
            && (FaultFree(w) ==> FaultFree(e.world))
            && (Stuck(s, SeenOf(w.files)) ==> e == Io(w, false))
  {
    hide AtomicWrite, Merge, Left, NoneManaged, DecodeHooks, SupportedPath;
    SeenIsMain(w.files);
    OriginalFacts(s);
    if s.original.Some? {
      if HasBackup(w.files, r) {
      } else if r.phase == Installing && SeenOf(w.files).config == s.original {
        assert UnmanagedConfig(w.files);
        WriteSeen(w, BackupPath, s.original.value);
      }
    }
  }

  lemma CommitSafe(s: Setup, w: World, r: Record, binary: Content)
    requires GoodSetup(s) && Safe(s, SeenOf(w.files)) && OwnRecord(s, r)
    requires SeenOf(w.files).state.Some? && (s.original.Some? ==> SeenOf(w.files).backup.Some?)
    ensures var c := Commit(w, r, Merged(s), binary);
            && Safe(s, SeenOf(c.world.files))
            && (c.ok ==> SeenOf(c.world.files) ==
                         Seen(Some(Merged(s)), Some(StateText(r.(phase := Installed, binaryDigest := binary))), SeenOf(w.files).backup, Some(binary)))
            && (FaultFree(w) ==> c.ok && FaultFree(c.world) && (NoSwap(w.files) ==> NoSwap(c.world.files)))
  {
    hide AtomicWrite, Merge, Left, IsUnmanaged, SeenOf, SupportedPath;
    var a := AtomicWrite(w, BinaryPath, binary);
    WriteSeen(w, BinaryPath, binary);
    if a.ok {
      var b := AtomicWrite(a.world, ConfigPath, Merged(s));
      WriteSeen(a.world, ConfigPath, Merged(s));
      if b.ok {
        WriteSeen(b.world, StatePath, StateText(r.(phase := Installed, binaryDigest := binary)));
      }
    }
  }

  lemma BeginSafe(s: Setup, w: World, r: Record)
    requires GoodSetup(s) && NoSwap(w.files) && Safe(s, SeenOf(w.files)) && OwnRecord(s, r)
    requires SeenOf(w.files).state == None && r.phase == Installing
    ensures var e := Begin(w, r);
            && Safe(s, SeenOf(e.world.files))
            && (e.ok ==> NoSwap(e.world.files) && SeenOf(e.world.files).state == Some(StateText(r)))
            && (e.ok && s.original.Some? ==> SeenOf(e.world.files).backup.Some?)
            && (FaultFree(w) ==> e.ok && FaultFree(e.world) && NoSwap(e.world.files))
  {
    hide AtomicWrite, Merge, Left, IsUnmanaged, SeenOf, SupportedPath, EnsureBackup;
    var a := AtomicWrite(w, StatePath, StateText(r));
    assert View(w.files, StatePath) == None by { StateOfSeen(w.files); }
    WriteSeen(w, StatePath, StateText(r));
    if a.ok {
      EnsureBackupSafe(s, a.world, r);
    }
  }

  lemma StateOfSeen(files: Files)
    ensures SeenOf(files).state == View(files, StatePath)
  {
  }

  // ----- install -----

  /** The state a finished installation leaves. */
  predicate InstalledSeen(s: Setup, seen: Seen, binary: Content)
    requires GoodSetup(s)
  {
    && seen.config == Some(Merged(s))
    && seen.backup == s.original
    && seen.binary == Some(binary)
    && seen.state.Some? && seen.state.value.StateText? && OwnRecord(s, seen.state.value.record)
    && seen.state.value.record.phase == Installed && seen.state.value.record.binaryDigest == binary
  }

  lemma InstallOverSafe(s: Setup, w: World, o: Options, previous: Option<Record>)
    requires GoodSetup(s) && o.target == s.target && o.binary.Some?
    requires NoSwap(w.files) && Safe(s, SeenOf(w.files))
    requires SeenOf(w.files).state == if previous.Some? then Some(StateText(previous.value)) else None
    requires previous.Some? && s.original.Some? ==> SeenOf(w.files).backup.Some?
    ensures var i := InstallOver(w, o, Merged(s), previous);
            && Safe(s, SeenOf(i.world.files))
            && (o.dryRun ==> i.world == w)
            && (!o.dryRun && i.outcome.Done? ==> i.outcome == Done(IsInstalled) && InstalledSeen(s, SeenOf(i.world.files), o.binary.value))
            && (!o.dryRun && FaultFree(w) ==> i.outcome == Done(IsInstalled) && NoSwap(i.world.files))
  {
    hide Begin, Commit, Merge, Left, IsUnmanaged, SupportedPath, SeenOf;
    SeenIsMain(w.files);
    var binary := o.binary.value;
    if previous.Some? {
      CommitSafe(s, w, previous.value, binary);
    } else {
      var r := FreshRecord(w.files, o.target, binary);
      assert SeenOf(w.files).config == s.original;
      BeginSafe(s, w, r);
      var begun := Begin(w, r);
      if begun.ok {
        CommitSafe(s, begun.world, r, binary);
      }
    }
  }

  lemma InstallPreparedSafe(s: Setup, w: World, o: Options)
    requires GoodSetup(s) && o.target == s.target
    requires NoSwap(w.files) && Safe(s, SeenOf(w.files))
    ensures var i := InstallPrepared(w, o);
            && Safe(s, SeenOf(i.world.files))
            && (o.dryRun ==> i.world == w)
            && (!o.dryRun && i.outcome.Done? ==>
                 o.binary.Some? && i.outcome == Done(IsInstalled) && InstalledSeen(s, SeenOf(i.world.files), o.binary.value))
            && (!o.dryRun && o.binary.Some? && FaultFree(w) && !Stuck(s, SeenOf(w.files)) ==>
                 i.outcome == Done(IsInstalled) && NoSwap(i.world.files))
            && (Stuck(s, SeenOf(w.files)) ==> i == Run(w, Failed))
  {
    hide EnsureBackup, InstallOver, Merge, Left, IsUnmanaged, SupportedPath, SeenOf, Desired;
    SeenIsMain(w.files);
    DesiredIsMerged(s, w.files);
    if o.binary.Some? {
      match ReadState(w.files, o.target)
      case BadState =>
      case NoState =>
        InstallOverSafe(s, w, o, None);
      case HaveState(r) =>
        EnsureBackupSafe(s, w, r);
        var checked := CheckBackup(w, r, o.dryRun);
        if checked.ok {
          assert s.original.Some? ==> SeenOf(checked.world.files).backup.Some?;
          InstallOverSafe(s, checked.world, o, Some(r));
        }
    }
  }

  /** Install, crashing anywhere: the invariant holds, and success means everything is in place. */
  lemma InstallSafe(s: Setup, w: World, o: Options)
    requires GoodSetup(s) && o.target == s.target && Safe(s, SeenOf(w.files))
    ensures var i := Install(w, o);
            && Safe(s, SeenOf(i.world.files))
            && (o.dryRun ==> i.world == w)
            && (!o.dryRun && i.outcome.Done? ==>
                 o.binary.Some? && i.outcome == Done(IsInstalled) && InstalledSeen(s, SeenOf(i.world.files), o.binary.value))
            && (!o.dryRun && o.binary.Some? && FaultFree(w) && !Stuck(s, SeenOf(w.files)) ==>
                 i.outcome == Done(IsInstalled) && NoSwap(i.world.files))
            && (Stuck(s, SeenOf(w.files)) ==> i.outcome == Failed && SeenOf(i.world.files) == SeenOf(w.files))
  {
    hide RecoverTarget, InstallPrepared, SeenOf, Merge, Left, IsUnmanaged, SupportedPath;
    RecoverTargetSeen(w);
    var ready := Prepare(w, o.dryRun);
    if ready.ok {
      if o.dryRun {
        NotInterrupted(w.files);
      }
      InstallPreparedSafe(s, ready.world, o);
    }
  }

  lemma NotInterrupted(files: Files)
    requires !Interrupted(files)
    ensures NoSwap(files)
  {
    forall q: Path ensures Swap(q) !in files {
      match q {
        case ConfigPath =>
        case StatePath =>
        case BackupPath =>
        case BinaryPath =>
      }
    }
  }

  // ----- uninstall -----

  /** Nothing of the installer's is left beside the configuration. */
  predicate TakenOff(config: Option<Content>, seen: Seen) {
    seen == Seen(config, None, None, None)
  }

  predicate RemovedSeen(s: Setup, seen: Seen) {
    TakenOff(s.original, seen)
  }

  lemma TakeDownSafe(s: Setup, w: World, content: Option<Content>, previous: Option<Record>)
    requires GoodSetup(s) && NoSwap(w.files) && Safe(s, SeenOf(w.files))
    requires previous.Some? && OwnRecord(s, previous.value) && SeenOf(w.files).state.Some?
    requires content == s.original || content == Left(s)
    ensures var t := TakeDown(w, content, previous);
            && (if t.ok then TakenOff(content, SeenOf(t.world.files)) else Safe(s, SeenOf(t.world.files)))
            && (FaultFree(w) ==> t.ok && NoSwap(t.world.files))
  {
    hide AtomicWrite, RemoveIfExists, Merge, Left, IsUnmanaged, SeenOf, SupportedPath;
    OriginalFacts(s);
    NothingLeftOfNothing(s);
    var a := PutConfig(w, content);
    if content.Some? {
      WriteSeen(w, ConfigPath, content.value);
    } else {
      RemoveSeen(w, ConfigPath);
    }
    if a.ok {
      var b := RemoveIfExists(a.world, BinaryPath);
      RemoveSeen(a.world, BinaryPath);
      if b.ok {
        var c := DropBackup(b.world, previous);
        RemoveSeen(b.world, BackupPath);
        if c.ok {
          RemoveSeen(c.world, StatePath);
        }
      }
    }
  }

  lemma NothingLeftOfNothing(s: Setup)
    requires GoodSetup(s)
    ensures s.original.Some? <==> Left(s).Some?
  {
  }

  lemma OnlyEmptyHooksHere()
    ensures OnlyEmptyHooks(map[HooksKey := Obj(map[])])
  {
    OnlyEmptyHooksIff(map[HooksKey := Obj(map[])]);
  }

  /** What uninstalling puts into hooks.json, given what is seen before it. */
  function FinalOf(s: Setup, seen: Seen): Option<Content>
    requires GoodSetup(s)
  {
    if seen.config == s.original && (seen.state.None? || HooksKey !in OriginalRoot(s)) then s.original else Left(s)
  }

  /** With an exact setup that is the original, always. */
  lemma FinalOfExact(s: Setup, seen: Seen)
    requires GoodSetup(s) && Exact(s)
    ensures FinalOf(s, seen) == s.original
  {
  }

  /** With a recorded installation, uninstall decides to leave the original, or the original with its hooks cleaned. */
  lemma FinalConfigLaw(s: Setup, files: Files, r: Record)
    requires GoodSetup(s) && NoSwap(files) && Safe(s, SeenOf(files)) && OwnRecord(s, r) && SeenOf(files).state.Some?
    requires s.original.Some? ==> SeenOf(files).backup.Some?
    ensures ConfigRoot(files).Some? && Remove(ConfigRoot(files).value).Ok?
    ensures FinalConfig(files, Some(r), Cleaned(ConfigRoot(files).value)) == FinalOf(s, SeenOf(files))
    ensures Exact(s) ==> FinalConfig(files, Some(r), Cleaned(ConfigRoot(files).value)) == s.original
  {
    hide Merge, Remove, Restorable, CleanRoot, IsUnmanaged, SupportedPath, OnlyEmptyHooks, SeenOf;
    SeenIsMain(files);
    OriginalFacts(s);
    var root := OriginalRoot(s);
    CleanFacts(root, s.target.binaryPath);
    if s.original.None? {
      CleanOfNothing();
      OnlyEmptyHooksHere();
    } else {
      assert s.original.value.tree == Some(Obj(root));
    }
  }

  lemma CleanOfNothing()
    ensures IsUnmanaged(map[]) && CleanRoot(map[]) == map[HooksKey := Obj(map[])]
  {
    EncodeEmpty();
    assert RemoveManaged(map[]) == map[];
  }

  lemma UninstallOverSafe(s: Setup, w: World, o: Options, previous: Option<Record>)
    requires GoodSetup(s) && o.target == s.target
    requires NoSwap(w.files) && Safe(s, SeenOf(w.files))
    requires SeenOf(w.files).state == if previous.Some? then Some(StateText(previous.value)) else None
    requires previous.Some? && s.original.Some? ==> SeenOf(w.files).backup.Some?
    ensures var u := UninstallOver(w, o, previous);
            && (o.dryRun ==> u.world == w)
            && (!o.dryRun && u.outcome.Done? ==> TakenOff(FinalOf(s, SeenOf(w.files)), SeenOf(u.world.files)))
            && (u.outcome.Failed? ==> Safe(s, SeenOf(u.world.files)))
            && (!o.dryRun && FaultFree(w) ==> u.outcome == Done(IsNotInstalled) && NoSwap(u.world.files))
  {
    hide TakeDown, Merge, Remove, Left, IsUnmanaged, SupportedPath, SeenOf, FinalConfig, FinalOf;
    SeenIsMain(w.files);
    if previous.Some? {
      FinalConfigLaw(s, w.files, previous.value);
      FinalOfEither(s, SeenOf(w.files));
      TakeDownSafe(s, w, FinalOf(s, SeenOf(w.files)), previous);
    } else {
      UnrecordedIsOriginal(s, w.files);
    }
  }

  lemma FinalOfEither(s: Setup, seen: Seen)
    requires GoodSetup(s)
    ensures FinalOf(s, seen) == s.original || FinalOf(s, seen) == Left(s)
    ensures seen.state.None? && seen.config == s.original ==> FinalOf(s, seen) == s.original
  {
  }

  /** Without a record hooks.json is the original, and there is nothing to take out of it. */
  lemma UnrecordedIsOriginal(s: Setup, files: Files)
    requires GoodSetup(s) && NoSwap(files) && Safe(s, SeenOf(files)) && SeenOf(files).state == None
    ensures ConfigRoot(files) == Some(OriginalRoot(s)) && Remove(OriginalRoot(s)).Ok?
    ensures DecodeHooks(OriginalRoot(s)).Ok? && NoneManaged(DecodeHooks(OriginalRoot(s)).value)
    ensures TakenOff(FinalOf(s, SeenOf(files)), SeenOf(files)) && Main(BinaryPath) !in files
  {
    hide Merge, Remove, SupportedPath, SeenOf, Left, NoneManaged, DecodeHooks, CleanRoot, Restorable;
    SeenIsMain(files);
    OriginalFacts(s);
    CleanFacts(OriginalRoot(s), s.target.binaryPath);
  }

  lemma UninstallPreparedSafe(s: Setup, w: World, o: Options)
    requires GoodSetup(s) && o.target == s.target
    requires NoSwap(w.files) && Safe(s, SeenOf(w.files))
    ensures var u := UninstallPrepared(w, o);
            && (o.dryRun ==> u.world == w)
            && (!o.dryRun && u.outcome.Done? ==> TakenOff(FinalOf(s, SeenOf(w.files)), SeenOf(u.world.files)))
            && (u.outcome.Failed? ==> Safe(s, SeenOf(u.world.files)))
            && (!o.dryRun && FaultFree(w) && !Stuck(s, SeenOf(w.files)) ==>
                 u.outcome == Done(IsNotInstalled) && NoSwap(u.world.files))
            && (Stuck(s, SeenOf(w.files)) ==> u == Run(w, Failed))
  {
    hide EnsureBackup, UninstallOver, Merge, Left, IsUnmanaged, SupportedPath, SeenOf, FinalOf;
    SeenIsMain(w.files);
    ConfigIsNotBlank(s, w.files);
    match ReadState(w.files, o.target)
    case BadState =>
    case NoState =>
      UninstallOverSafe(s, w, o, None);
    case HaveState(r) =>
      EnsureBackupSafe(s, w, r);
      var checked := CheckBackup(w, r, o.dryRun);
      if checked.ok {
        assert s.original.Some? ==> SeenOf(checked.world.files).backup.Some?;
        SameFinal(s, SeenOf(w.files), SeenOf(checked.world.files));
        UninstallOverSafe(s, checked.world, o, Some(r));
      }
  }

  lemma SameFinal(s: Setup, a: Seen, b: Seen)
    requires GoodSetup(s) && a.config == b.config && a.state == b.state
    ensures FinalOf(s, a) == FinalOf(s, b)
  {
  }

  lemma ConfigIsNotBlank(s: Setup, files: Files)
    requires GoodSetup(s) && NoSwap(files) && Safe(s, SeenOf(files))
    ensures At(files, Main(ConfigPath)) != Some(Blank)
  {
    SeenIsMain(files);
  }

  /**
   Uninstall, crashing anywhere: the invariant holds until it is done, and success means just the
   original is left, or the original with its hooks cleaned.
   */
  lemma UninstallSafe(s: Setup, w: World, o: Options)
    requires GoodSetup(s) && o.target == s.target && Safe(s, SeenOf(w.files))
    ensures var u := Uninstall(w, o);
            && (o.dryRun ==> u.world == w)
            && (!o.dryRun && u.outcome.Done? ==> TakenOff(FinalOf(s, SeenOf(w.files)), SeenOf(u.world.files)))
            && (!o.dryRun && u.outcome.Done? && Exact(s) ==> RemovedSeen(s, SeenOf(u.world.files)))
            && (u.outcome.Failed? ==> Safe(s, SeenOf(u.world.files)))
            && (!o.dryRun && FaultFree(w) && !Stuck(s, SeenOf(w.files)) ==>
                 u.outcome == Done(IsNotInstalled) && NoSwap(u.world.files))
            && (Stuck(s, SeenOf(w.files)) ==> u.outcome == Failed && SeenOf(u.world.files) == SeenOf(w.files))
  {
    hide RecoverTarget, UninstallPrepared, SeenOf, Merge, Left, IsUnmanaged, SupportedPath, FinalOf;
    RecoverTargetSeen(w);
    var ready := Prepare(w, o.dryRun);
    if Exact(s) {
      FinalOfExact(s, SeenOf(w.files));
    }
    if ready.ok {
      if o.dryRun {
        NotInterrupted(w.files);
      }
      UninstallPreparedSafe(s, ready.world, o);
    }
  }

  // ----- whole runs -----

  /** One attempt: which command, with which binary, and how its file operations go. */
  datatype Attempt = Attempt(uninstall: bool, binary: Option<Content>, dryRun: bool, plan: seq<bool>, tail: bool)

  function Try(files: Files, serial: nat, a: Attempt, target: Target): Run {
    var w := World(files, a.plan, a.tail, serial);
    var o := Options(target, a.binary, a.dryRun);
    if a.uninstall then Uninstall(w, o) else Install(w, o)
  }

  /** The files after a history of attempts, each starting where the last one stopped or crashed. */
  function After(start: Files, history: seq<Attempt>, target: Target): World {
    if history == [] then World(start, [], true, 0)
    else
      var before := After(start, history[..|history| - 1], target);
      Try(before.files, before.serial, history[|history| - 1], target).world
  }

  /** Files as they are before the installer first runs: the original configuration and nothing of the installer's. */
  predicate Untouched(s: Setup, files: Files) {
    SeenOf(files) == Seen(s.original, None, None, None)
  }

  /** The setup a state belongs to: the first one, or the one an uninstall has left. */
  function Current(s: Setup, seen: Seen): Setup
    requires GoodSetup(s)
  {
    if Safe(s, seen) then s else NextSetup(s)
  }

  /** The invariant over whole histories. */
  predicate Sound(s: Setup, seen: Seen)
    requires GoodSetup(s)
  {
    GoodSetup(Current(s, seen)) && Safe(Current(s, seen), seen)
  }

  lemma TakenOffIsSafe(s: Setup, config: Option<Content>, seen: Seen)
    requires GoodSetup(s) && TakenOff(config, seen)
    ensures config == s.original ==> Safe(s, seen)
    ensures GoodSetup(NextSetup(s)) && (config == Left(s) ==> Safe(NextSetup(s), seen))
  {
    hide Merge, Restorable, CleanRoot, IsUnmanaged, SupportedPath;
    NextSetupFacts(s);
    OriginalFacts(s);
    OriginalFacts(NextSetup(s));
  }

  /** An attempt leaves a state of the same setup, or, uninstalling, the first state of the next one. */
  lemma TrySafe(s: Setup, files: Files, serial: nat, a: Attempt)
    requires GoodSetup(s) && Safe(s, SeenOf(files))
    ensures Sound(s, SeenOf(Try(files, serial, a, s.target).world.files))
  {
    hide Install, Uninstall, Safe, GoodSetup, SeenOf, Left, FinalOf;
    var w := World(files, a.plan, a.tail, serial);
    var o := Options(s.target, a.binary, a.dryRun);
    if a.uninstall {
      UninstallSafe(s, w, o);
      FinalOfEither(s, SeenOf(files));
      var u := Uninstall(w, o);
      if u.outcome.Done? && !a.dryRun {
        TakenOffIsSafe(s, FinalOf(s, SeenOf(files)), SeenOf(u.world.files));
      }
    } else {
      InstallSafe(s, w, o);
    }
  }

  lemma TrySound(s: Setup, files: Files, serial: nat, a: Attempt)
    requires GoodSetup(s) && Sound(s, SeenOf(files))
    ensures Sound(s, SeenOf(Try(files, serial, a, s.target).world.files))
  {
    hide Try, Safe, GoodSetup, SeenOf, Left;
    if Safe(s, SeenOf(files)) {
      TrySafe(s, files, serial, a);
    } else {
      NextSetupFacts(s);
      TrySafe(NextSetup(s), files, serial, a);
    }
  }

  /**
   In every reachable state, however many attempts crashed: hooks.json is the original, its merge
   or its cleaned form, a merged one has its backup, and nothing of the installer's exists without
   the state file; where the original can be given back exactly this is so of it alone.
   */
  lemma {:induction false} EveryRunIsSafe(s: Setup, start: Files, history: seq<Attempt>)
    requires GoodSetup(s) && Untouched(s, start)
    ensures var seen := SeenOf(After(start, history, s.target).files);
            && Sound(s, seen)
            && (seen.config == s.original || seen.config == Some(Merged(s)) || seen.config == Left(s))
            && (Exact(s) ==> Safe(s, seen))
  {
    hide Safe, GoodSetup, Try, SeenOf, Left;
    if history == [] {
      UntouchedIsSafe(s, start);
    } else {
      EveryRunIsSafe(s, start, history[..|history| - 1]);
      var before := After(start, history[..|history| - 1], s.target);
      TrySound(s, before.files, before.serial, history[|history| - 1]);
    }
    SoundConfig(s, SeenOf(After(start, history, s.target).files));
  }

  lemma UntouchedIsSafe(s: Setup, start: Files)
    requires GoodSetup(s) && Untouched(s, start)
    ensures Safe(s, SeenOf(start))
  {
    hide Left, Merge, SeenOf;
    OriginalFacts(s);
  }

  lemma SoundConfig(s: Setup, seen: Seen)
    requires GoodSetup(s) && Sound(s, seen)
    ensures seen.config == s.original || seen.config == Some(Merged(s)) || seen.config == Left(s)
    ensures Exact(s) ==> Safe(s, seen)
  {
    hide Left, Merge, IsUnmanaged, SupportedPath;
    NextSetupFacts(s);
  }

  /**
   From every reachable state a rerun without faults reaches "installed", or just what is to be
   left, unless the state is a stuck one; there both commands fail and change nothing seen.
   */
  lemma RerunCompletesIff(s: Setup, start: Files, history: seq<Attempt>, rerun: Attempt)
    requires GoodSetup(s) && Untouched(s, start)
    requires !rerun.dryRun && rerun.binary.Some? && rerun.plan == [] && rerun.tail
    ensures var before := After(start, history, s.target);
            var now := Current(s, SeenOf(before.files));
            var run := Try(before.files, before.serial, rerun, s.target);
            && GoodSetup(now)
            && (run.outcome.Done? <==> !Stuck(now, SeenOf(before.files)))
            && (run.outcome.Done? ==>
                 NoSwap(run.world.files) &&
                 if rerun.uninstall then TakenOff(FinalOf(now, SeenOf(before.files)), SeenOf(run.world.files))
                 else InstalledSeen(now, SeenOf(run.world.files), rerun.binary.value))
            && (run.outcome.Failed? ==> SeenOf(run.world.files) == SeenOf(before.files))
            && (Exact(s) ==> now == s && FinalOf(now, SeenOf(before.files)) == s.original)
  {
    hide Install, Uninstall, GoodSetup, SeenOf, Safe, FinalOf, Left;
    EveryRunIsSafe(s, start, history);
    var before := After(start, history, s.target);
    var now := Current(s, SeenOf(before.files));
    var w := World(before.files, rerun.plan, rerun.tail, before.serial);
    var o := Options(s.target, rerun.binary, rerun.dryRun);
    if Exact(s) {
      FinalOfExact(s, SeenOf(before.files));
    }
    if rerun.uninstall {
      UninstallSafe(now, w, o);
    } else {
      InstallSafe(now, w, o);
    }
  }

  // ----- the stuck state can happen -----

  predicate GoesWell(plan: seq<bool>, n: nat) {
    n <= |plan| && forall i :: 0 <= i < n ==> plan[i]
  }

  lemma AskedSteps(w: World, n: nat)
    requires GoesWell(w.plan, n) && 0 < n
    ensures Answer(w) && Asked(w).plan == w.plan[1..] && GoesWell(Asked(w).plan, n - 1)
  {
  }

  lemma FillAndSwapAsks(w: World, path: Path, temp: Name, content: Content)
    requires temp.Temp? && GoesWell(w.plan, 4) && Main(path) in w.files && Swap(path) !in w.files
    ensures var r := FillAndSwap(w, path, temp, content);
            r.ok && r.world.plan == w.plan[4..] && r.world.tail == w.tail && temp !in r.world.files && Swap(path) !in r.world.files
  {
    AskedSteps(w, 4);
    var filled := WriteFile(w, temp, content).world;
    AskedSteps(filled, 3);
    var aside := MoveAside(filled, path).world;
    AskedSteps(aside, 2);
    var placed := RenameFile(aside, temp, Main(path)).world;
    AskedSteps(placed, 1);
    assert w.plan[1..][1..][1..][1..] == w.plan[4..];
  }

  lemma WriteAsks(w: World, path: Path, content: Content)
    requires GoesWell(w.plan, 6) && Main(path) in w.files && w.files[Main(path)] != content && Swap(path) !in w.files
    ensures var r := AtomicWrite(w, path, content);
            r.ok && r.world.plan == w.plan[6..] && r.world.tail == w.tail && Swap(path) !in r.world.files
  {
    hide FillAndSwap, RecoverSwap;
    RecoverSwapLaw(w, path);
    AskedSteps(w, 6);
    var dirs := MakeDirs(w).world;
    AskedSteps(dirs, 5);
    var created := CreateTemp(dirs, path).world;
    FillAndSwapAsks(created, path, Temp(path, dirs.serial), content);
    assert w.plan[1..][1..][4..] == w.plan[6..];
  }

  /** Uninstalling a finished installation and crashing between the last two removals. */
  const LAST_STEP_LOST: Attempt := Attempt(true, None, false, [true, true, true, true, true, true, true, true], false)

  lemma TakeDownLosesLastStep(s: Setup, w: World, r: Record, binary: Content, content: Content)
    requires GoodSetup(s) && s.original.Some? && NoSwap(w.files) && InstalledSeen(s, SeenOf(w.files), binary) && OwnRecord(s, r)
    requires w.plan == LAST_STEP_LOST.plan && !w.tail && content != Merged(s)
    ensures SeenOf(TakeDown(w, Some(content), Some(r)).world.files) ==
            SeenOf(w.files).(config := Some(content), binary := None, backup := None)
  {
    hide AtomicWrite, Merge, Left, IsUnmanaged, SupportedPath;
    SeenIsMain(w.files);
    WriteAsks(w, ConfigPath, content);
    WriteSeen(w, ConfigPath, content);
    var a := AtomicWrite(w, ConfigPath, content).world;
    assert a.plan == [true, true];
    AskedSteps(a, 2);
    RemoveSeen(a, BinaryPath);
    var b := RemoveIfExists(a, BinaryPath).world;
    assert Main(BinaryPath) in a.files;
    AskedSteps(b, 1);
    RemoveSeen(b, BackupPath);
    assert Main(BackupPath) in b.files;
    var c := RemoveIfExists(b, BackupPath).world;
    RemoveSeen(c, StatePath);
  }

  /** From every finished installation over an existing file, one ill-timed crash leads to the stuck state. */
  lemma StuckIsReachable(s: Setup, files: Files, serial: nat, binary: Content)
    requires GoodSetup(s) && s.original.Some? && NoSwap(files) && InstalledSeen(s, SeenOf(files), binary)
    ensures Stuck(s, SeenOf(Try(files, serial, LAST_STEP_LOST, s.target).world.files))
  {
    hide TakeDown, Merge, Left, IsUnmanaged, SupportedPath, FinalConfig, FinalOf;
    var w := World(files, LAST_STEP_LOST.plan, false, serial);
    SeenIsMain(files);
    RecoverTargetUntouched(w);
    OriginalFacts(s);
    NothingLeftOfNothing(s);
    var r := SeenOf(files).state.value.record;
    FinalConfigLaw(s, files, r);
    FinalOfMerged(s, SeenOf(files));
    TakeDownLosesLastStep(s, w, r, binary, Left(s).value);
  }

  lemma FinalOfMerged(s: Setup, seen: Seen)
    requires GoodSetup(s) && seen.config == Some(Merged(s)) && s.original != Some(Merged(s))
    ensures FinalOf(s, seen) == Left(s)
  {
  }

  lemma RecoverTargetUntouched(w: World)
    requires NoSwap(w.files)
    ensures RecoverTarget(w) == Io(w, true)
  {
  }
}
