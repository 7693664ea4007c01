/**
 Single commands without faults: when a first installation succeeds, what uninstall leaves of an
 edited configuration, and when the pair gives the original bytes back.
 */
module InstallerRestore {
  import opened Common
  import opened HookConfig
  import opened SwapFiles
  import opened Installer
  import opened InstallerSafety

  /** Only a configuration exists: nothing of the installer's, no interrupted write. */
  predicate OnlyConfig(files: Files, config: Content) {
    NoSwap(files) && SeenOf(files) == Seen(Some(config), None, None, None)
  }

  lemma CommitFaultFree(w: World, r: Record, desired: Content, binary: Content)
    requires FaultFree(w) && NoSwap(w.files)
    ensures var c := Commit(w, r, desired, binary);
            && c.ok && FaultFree(c.world) && NoSwap(c.world.files)
            && SeenOf(c.world.files) ==
               Seen(Some(desired), Some(StateText(r.(phase := Installed, binaryDigest := binary))), SeenOf(w.files).backup, Some(binary))
  {
    hide AtomicWrite, SeenOf;
    WriteSeen(w, BinaryPath, binary);
    var a := AtomicWrite(w, BinaryPath, binary);
    WriteSeen(a.world, ConfigPath, desired);
    var b := AtomicWrite(a.world, ConfigPath, desired);
    WriteSeen(b.world, StatePath, StateText(r.(phase := Installed, binaryDigest := binary)));
  }

  lemma BeginFaultFree(w: World, r: Record, config: Content)
    requires FaultFree(w) && OnlyConfig(w.files, config)
    requires r.originalExists && r.originalDigest == Some(config) && r.backup == Some(BackupPath) && r.phase == Installing
    ensures var e := Begin(w, r);
            && (e.ok <==> UnmanagedConfig(w.files))
            && FaultFree(e.world) && NoSwap(e.world.files)
            && SeenOf(e.world.files) ==
               Seen(Some(config), Some(StateText(r)), if e.ok then Some(config) else None, None)
  {
    hide AtomicWrite;
    SeenIsMain(w.files);
    WriteSeen(w, StatePath, StateText(r));
    var a := AtomicWrite(w, StatePath, StateText(r));
    SeenIsMain(a.world.files);
    WriteSeen(a.world, BackupPath, config);
    assert UnmanagedConfig(a.world.files) == UnmanagedConfig(w.files);
  }

  /**
   A first installation over an existing file succeeds exactly when the file holds no managed
   handler; otherwise it fails and leaves a state file behind.
   */
  lemma FirstInstallIff(w: World, o: Options, config: Content)
    requires FaultFree(w) && OnlyConfig(w.files, config) && !o.dryRun && o.binary.Some?
    requires ParseRoot(config).Some? && Merge(ParseRoot(config).value, o.target.binaryPath, HOOK_EVENTS).Ok?
    ensures var i := Install(w, o);
            var root := ParseRoot(config).value;
            var r := FreshRecord(w.files, o.target, o.binary.value);
            && (i.outcome == Done(IsInstalled) <==> NoneManaged(DecodeHooks(root).value))
            && FaultFree(i.world) && NoSwap(i.world.files)
            && SeenOf(i.world.files) ==
               if i.outcome == Done(IsInstalled)
               then Seen(Some(Print(Merge(root, o.target.binaryPath, HOOK_EVENTS).value)), Some(StateText(r.(phase := Installed))), Some(config), o.binary)
               else Seen(Some(config), Some(StateText(r)), None, None)
  {
    hide Begin, Commit, Merge, NoneManaged, DecodeHooks;
    SeenIsMain(w.files);
    RecoverTargetUntouched(w);
    var r := FreshRecord(w.files, o.target, o.binary.value);
    BeginFaultFree(w, r, config);
    var desired := Desired(w.files, o.target).value;
    MergeDecodes(ParseRoot(config).value, o.target.binaryPath, HOOK_EVENTS);
    CommitFaultFree(Begin(w, r).world, r, desired, o.binary.value);
  }

  lemma MergeDecodes(root: Root, binaryPath: string, events: seq<Key>)
    requires Merge(root, binaryPath, events).Ok?
    ensures DecodeHooks(root).Ok?
  {
  }

  /** The record left by a failed first installation makes every later install and uninstall fail as well. */
  lemma ManagedOriginalNeverInstalls(w: World, o: Options, config: Content)
    requires NoSwap(w.files) && ReadState(w.files, o.target).HaveState? && At(w.files, Main(ConfigPath)) == Some(config)
    requires var r := ReadState(w.files, o.target).record;
             r.phase == Installing && r.originalExists && !HasBackup(w.files, r)
    requires !UnmanagedConfig(w.files)
    ensures Install(w, o) == Run(w, Failed) && Uninstall(w, o) == Run(w, Failed)
  {
    hide AtomicWrite, Merge, UnmanagedConfig, InstallOver, UninstallOver;
    RecoverTargetUntouched(w);
  }

  // ----- uninstall over an edited configuration -----

  predicate OrdinaryRecord(r: Record) {
    r.backup == if r.originalExists then Some(BackupPath) else None
  }

  lemma TakeDownFaultFree(w: World, content: Option<Content>, r: Record)
    requires FaultFree(w) && NoSwap(w.files) && OrdinaryRecord(r)
    requires !r.originalExists ==> SeenOf(w.files).backup == None
    ensures var t := TakeDown(w, content, Some(r));
            && t.ok && FaultFree(t.world) && NoSwap(t.world.files)
            && SeenOf(t.world.files) == Seen(content, None, None, None)
  {
    hide AtomicWrite, RemoveIfExists, SeenOf;
    if content.Some? {
      WriteSeen(w, ConfigPath, content.value);
    } else {
      RemoveSeen(w, ConfigPath);
    }
    var a := PutConfig(w, content);
    RemoveSeen(a.world, BinaryPath);
    var b := RemoveIfExists(a.world, BinaryPath);
    RemoveSeen(b.world, BackupPath);
    var c := DropBackup(b.world, Some(r));
    RemoveSeen(c.world, StatePath);
  }

  /** A recorded installation with a good backup always comes off, whatever document hooks.json now is. */
  lemma UninstallFinishes(w: World, o: Options, r: Record)
    requires FaultFree(w) && NoSwap(w.files) && !o.dryRun
    requires ReadState(w.files, o.target) == HaveState(r) && OrdinaryRecord(r) && BackupMatches(w.files, r)
    requires !r.originalExists ==> SeenOf(w.files).backup == None
    requires ConfigRoot(w.files).Some? && Remove(ConfigRoot(w.files).value).Ok?
    ensures var u := Uninstall(w, o);
            && u.outcome == Done(IsNotInstalled) && FaultFree(u.world) && NoSwap(u.world.files)
            && SeenOf(u.world.files) ==
               Seen(FinalConfig(w.files, Some(r), Cleaned(ConfigRoot(w.files).value)), None, None, None)
  {
    hide AtomicWrite, Remove, FinalConfig, TakeDown, SeenOf, NoneManaged;
    RecoverTargetUntouched(w);
    TakeDownFaultFree(w, FinalConfig(w.files, Some(r), Cleaned(ConfigRoot(w.files).value)), r);
  }

  /**
   Edits made after the installation survive: unless what is left after removing the managed
   handlers is the original document again, an empty document, or (when there was no original)
   a single key without hook events, hooks.json becomes exactly what is left.
   */
  lemma EditsSurviveUninstall(w: World, o: Options, r: Record, edited: Root)
    requires FaultFree(w) && NoSwap(w.files) && !o.dryRun
    requires ReadState(w.files, o.target) == HaveState(r) && OrdinaryRecord(r) && BackupMatches(w.files, r)
    requires !r.originalExists ==> SeenOf(w.files).backup == None
    requires r.originalExists ==> r.originalDigest.Some? && ParseRoot(r.originalDigest.value).Some?
    requires Main(ConfigPath) in w.files && ParseRoot(w.files[Main(ConfigPath)]) == Some(edited) && Remove(edited).Ok?
    ensures var left := Remove(edited).value;
            View(Uninstall(w, o).world.files, ConfigPath) ==
            if r.originalExists then
              if left == map[] || left == ParseRoot(r.originalDigest.value).value then r.originalDigest else Some(Print(left))
            else
              if left == map[] || OnlyEmptyHooks(left) then None else Some(Print(left))
  {
    hide Uninstall, Remove, OnlyEmptyHooks, ReadState;
    UninstallFinishes(w, o, r);
  }

  // ----- the round trip -----

  /**
   Installing over an existing file without managed handlers and uninstalling again gives the
   same bytes back exactly when the document is restorable.
   */
  lemma RoundTripIff(w: World, o: Options, config: Content)
    requires FaultFree(w) && OnlyConfig(w.files, config) && !o.dryRun && o.binary.Some?
    requires ParseRoot(config).Some? && Merge(ParseRoot(config).value, o.target.binaryPath, HOOK_EVENTS).Ok?
    requires NoneManaged(DecodeHooks(ParseRoot(config).value).value)
    ensures var u := Uninstall(Install(w, o).world, o);
            && u.outcome == Done(IsNotInstalled)
            && SeenOf(u.world.files).(config := Some(config)) == Seen(Some(config), None, None, None)
            && (SeenOf(u.world.files).config == Some(config) <==> Restorable(ParseRoot(config).value))
  {
    hide Install, Uninstall, Merge, Remove, DecodeHooks, NoneManaged, Restorable;
    var root := ParseRoot(config).value;
    FirstInstallIff(w, o, config);
    var i := Install(w, o).world;
    SeenIsMain(w.files);
    SeenIsMain(i.files);
    var r := FreshRecord(w.files, o.target, o.binary.value).(phase := Installed);
    assert ReadState(i.files, o.target) == HaveState(r);
    RemoveAfterMerge(root, o.target.binaryPath, HOOK_EVENTS);
    MergeRemoveRestoresIff(root, o.target.binaryPath, HOOK_EVENTS);
    var merged := Merge(root, o.target.binaryPath, HOOK_EVENTS).value;
    EditsSurviveUninstall(i, o, r, merged);
    UninstallFinishes(i, o, r);
    assert HooksKey in Remove(merged).value;
  }

  // ----- the reported status -----

  /** In a safe state with nothing interrupted the status says exactly how far the installation is. */
  lemma StatusIsExact(s: Setup, files: Files)
    requires GoodSetup(s) && NoSwap(files) && Safe(s, SeenOf(files))
    ensures var seen, status := SeenOf(files), StatusOf(files, s.target);
            && (status == Done(IsInstalled) <==> exists binary :: InstalledSeen(s, seen, binary))
            && (status == Done(IsNotInstalled) <==> RemovedSeen(s, seen))
            && (status == Failed <==> seen.state.Some? && s.original.Some? && seen.backup.None?)
  {
    hide Merge, Left, SupportedPath, NoneManaged, CompleteLayout, DecodeHooks;
    SeenIsMain(files);
    OriginalFacts(s);
    var seen := SeenOf(files);
    ConfigInSafe(s, files);
    if seen.config != Some(Merged(s)) {
      UnmanagedNotComplete(ConfigRoot(files).value);
    }
    if seen.binary.Some? {
      assert InstalledSeen(s, seen, seen.binary.value) <==> exists binary :: InstalledSeen(s, seen, binary);
    }
  }

  /** hooks.json is always a document; one that is not the merge holds nothing managed. */
  lemma ConfigInSafe(s: Setup, files: Files)
    requires GoodSetup(s) && NoSwap(files) && Safe(s, SeenOf(files))
    ensures ConfigRoot(files).Some?
    ensures SeenOf(files).config != Some(Merged(s)) ==> IsUnmanaged(ConfigRoot(files).value)
    ensures SeenOf(files).config == Some(Merged(s)) ==> ConfigRoot(files) == ParseRoot(Merged(s))
  {
    hide Merge, Restorable, CleanRoot, IsUnmanaged, SupportedPath;
    SeenIsMain(files);
    OriginalFacts(s);
    CleanFacts(OriginalRoot(s), s.target.binaryPath);
  }

  lemma UnmanagedNotComplete(root: Root)
    requires IsUnmanaged(root)
    ensures !CompleteLayout(DecodeHooks(root).value, HOOK_EVENTS)
  {
    if CompleteLayout(DecodeHooks(root).value, HOOK_EVENTS) {
      CompleteIsManaged(DecodeHooks(root).value);
    }
  }

  /** The status over any files: an interrupted write makes it partial, and unreadable documents make it fail. */
  lemma StatusReads(files: Files, target: Target)
    ensures (exists p: Path :: Swap(p) in files) ==> StatusOf(files, target) == Done(IsPartial)
    ensures NoSwap(files) && Main(ConfigPath) in files && ParseRoot(files[Main(ConfigPath)]).None? ==> StatusOf(files, target) == Failed
    ensures NoSwap(files) && Main(StatePath) in files && !files[Main(StatePath)].StateText? ==> StatusOf(files, target) == Failed
  {
    if p: Path :| Swap(p) in files {
      match p {
        case ConfigPath =>
        case StatePath =>
        case BackupPath =>
        case BinaryPath =>
      }
    }
  }

  // ----- runs that change nothing -----

  /** Installing the same binary over a finished installation touches no file. */
  lemma InstallAgainChangesNothing(s: Setup, w: World, o: Options)
    requires GoodSetup(s) && o.target == s.target && NoSwap(w.files) && Safe(s, SeenOf(w.files))
    requires o.binary.Some? && InstalledSeen(s, SeenOf(w.files), o.binary.value)
    ensures Install(w, o) == Run(w, Done(IsInstalled))
  {
    hide Merge, Left, IsUnmanaged, SupportedPath, AtomicWrite;
    SeenIsMain(w.files);
    RecoverTargetUntouched(w);
    DesiredIsMerged(s, w.files);
  }

  /** A dry run of an install foretells it: refused without a needed backup, nothing to do when installed, else planned. */
  lemma DryInstallForetells(s: Setup, w: World, o: Options)
    requires GoodSetup(s) && o.target == s.target && NoSwap(w.files) && Safe(s, SeenOf(w.files)) && o.dryRun && o.binary.Some?
    ensures var seen := SeenOf(w.files);
            Install(w, o) == Run(w, if s.original.Some? && seen.state.Some? && seen.backup.None? then Failed
                                    else if InstalledSeen(s, seen, o.binary.value) then Done(IsInstalled)
                                    else Done(IsPlanned))
  {
    hide Merge, Left, IsUnmanaged, SupportedPath, AtomicWrite;
    SeenIsMain(w.files);
    DesiredIsMerged(s, w.files);
  }

  /** So does that of an uninstall: nothing to do without a record, refused without a needed backup, else planned. */
  lemma DryUninstallForetells(s: Setup, w: World, o: Options)
    requires GoodSetup(s) && o.target == s.target && NoSwap(w.files) && Safe(s, SeenOf(w.files)) && o.dryRun
    ensures var seen := SeenOf(w.files);
            Uninstall(w, o) == Run(w, if seen.state.None? then Done(IsNotInstalled)
                                      else if s.original.Some? && seen.backup.None? then Failed
                                      else Done(IsPlanned))
  {
    hide Merge, Remove, Left, IsUnmanaged, SupportedPath, AtomicWrite, SeenOf, NoneManaged, DecodeHooks;
    SeenIsMain(w.files);
    ConfigIsNotBlank(s, w.files);
    if SeenOf(w.files).state.None? {
      UnrecordedIsOriginal(s, w.files);
    } else if s.original.None? || SeenOf(w.files).backup.Some? {
      FinalConfigLaw(s, w.files, SeenOf(w.files).state.value.record);
    }
  }

  /** A dry run does not look past an interrupted write. */
  lemma DryRunNeedsQuiet(w: World, o: Options)
    requires o.dryRun && exists p: Path :: Swap(p) in w.files
    ensures Install(w, o) == Run(w, Failed) && Uninstall(w, o) == Run(w, Failed)
  {
    var p: Path :| Swap(p) in w.files;
    match p {
      case ConfigPath =>
      case StatePath =>
      case BackupPath =>
      case BinaryPath =>
    }
  }
}
