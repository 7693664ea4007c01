/**
 Install and uninstall of internal/adapters/codex/install/installer.go as one crashable transaction.

 The functions say what each command leaves in the world; class Manager carries the same
 commands out step by step on a mutable disk.
 */
module Installer {
  import opened Common
  import opened HookConfig
  import opened SwapFiles

  const STATE_VERSION := 1

  datatype Options = Options(target: Target, binary: Option<Content>, dryRun: bool)

  datatype Status = IsInstalled | IsNotInstalled | IsPartial | IsPlanned

  datatype Outcome = Failed | Done(status: Status)

  datatype Run = Run(world: World, outcome: Outcome)

  // ----- reading -----

  function ParseRoot(content: Content): Option<Root> {
    if content.Text? && content.tree.Some? && content.tree.value.Obj? then Some(content.tree.value.fields) else None
  }

  function Print(root: Root): Content {
    Text(0, Some(Obj(root)))
  }

  /** The configuration as a document; a missing file reads as an empty object. */
  function ConfigRoot(files: Files): Option<Root> {
    if Main(ConfigPath) !in files then Some(map[]) else ParseRoot(files[Main(ConfigPath)])
  }

  function Desired(files: Files, target: Target): Option<Content> {
    match ConfigRoot(files)
    case None => None
    case Some(root) =>
      match Merge(root, target.binaryPath, HOOK_EVENTS)
      case Err(_) => None
      case Ok(merged) => Some(Print(merged))
  }

  predicate ValidRecord(r: Record, target: Target) {
    r.version == STATE_VERSION && r.installId == INSTALL_ID && r.target == target && !r.phase.OtherPhase?
  }

  datatype StateRead = NoState | BadState | HaveState(record: Record)

  function ReadState(files: Files, target: Target): StateRead {
    if Main(StatePath) !in files then NoState
    else
      var content := files[Main(StatePath)];
      if content.StateText? && ValidRecord(content.record, target) then HaveState(content.record) else BadState
  }

  predicate HasBackup(files: Files, r: Record) {
    r.backup.Some? && Main(r.backup.value) in files
  }

  /** validateBackup */
  predicate BackupMatches(files: Files, r: Record) {
    r.originalExists ==> HasBackup(files, r) && Some(files[Main(r.backup.value)]) == r.originalDigest
  }

  predicate UnmanagedConfig(files: Files) {
    && Main(ConfigPath) in files
    && ParseRoot(files[Main(ConfigPath)]).Some?
    && var hooks := DecodeHooks(ParseRoot(files[Main(ConfigPath)]).value);
    hooks.Ok? && NoneManaged(hooks.value)
  }

  /** ensureBackup: accept the recorded backup, or write it again while the configuration is still the original. */
  function EnsureBackup(w: World, r: Record): Io {
    if !r.originalExists then Io(w, true)
    else if HasBackup(w.files, r) then Io(w, BackupMatches(w.files, r))
    else if r.phase == Installing && At(w.files, Main(ConfigPath)) == r.originalDigest && UnmanagedConfig(w.files) && r.backup.Some?
    then AtomicWrite(w, r.backup.value, w.files[Main(ConfigPath)])
    else Io(w, false)
  }

  predicate Interrupted(files: Files) {
    Swap(ConfigPath) in files || Swap(StatePath) in files || Swap(BackupPath) in files || Swap(BinaryPath) in files
  }

  /** recoverTarget */
  function RecoverTarget(w: World): Io {
    var a := RecoverSwap(w, ConfigPath);
    if !a.ok then a
    else
      var b := RecoverSwap(a.world, StatePath);
      if !b.ok then b
      else
        var c := RecoverSwap(b.world, BackupPath);
        if !c.ok then c else RecoverSwap(c.world, BinaryPath)
  }

  /** A dry run refuses to look past an interrupted write; a real run recovers it first. */
  function Prepare(w: World, dryRun: bool): Io {
    if dryRun then Io(w, !Interrupted(w.files)) else RecoverTarget(w)
  }

  function CheckBackup(w: World, r: Record, dryRun: bool): Io {
    if dryRun then Io(w, BackupMatches(w.files, r)) else EnsureBackup(w, r)
  }

  // ----- install -----

  function FreshRecord(files: Files, target: Target, binary: Content): Record {
    var config := At(files, Main(ConfigPath));
    Record(STATE_VERSION, INSTALL_ID, target, Installing, config.Some?, config, if config.Some? then Some(BackupPath) else None, binary)
  }

  predicate Current(files: Files, desired: Content, binary: Content, previous: Option<Record>) {
    && At(files, Main(ConfigPath)) == Some(desired)
    && At(files, Main(BinaryPath)) == Some(binary)
    && previous.Some? && previous.value.phase == Installed && previous.value.binaryDigest == binary
  }

  /** The state file and the backup of a first installation. */
  function Begin(w: World, r: Record): Io {
    var a := AtomicWrite(w, StatePath, StateText(r));
    if !a.ok then a else EnsureBackup(a.world, r)
  }

  /** Binary, configuration, then the state that declares both in place. */
  function Commit(w: World, r: Record, desired: Content, binary: Content): Io {
    var a := AtomicWrite(w, BinaryPath, binary);
    if !a.ok then a
    else
      var b := AtomicWrite(a.world, ConfigPath, desired);
      if !b.ok then b
      else AtomicWrite(b.world, StatePath, StateText(r.(phase := Installed, binaryDigest := binary)))
  }

  function Finish(io: Io, status: Status): Run {
    Run(io.world, if io.ok then Done(status) else Failed)
  }

  function InstallOver(w: World, o: Options, desired: Content, previous: Option<Record>): Run
    requires o.binary.Some?
  {
    if Current(w.files, desired, o.binary.value, previous) then Run(w, Done(IsInstalled))
    else if o.dryRun then Run(w, Done(IsPlanned))
    else if previous.Some? then Finish(Commit(w, previous.value, desired, o.binary.value), IsInstalled)
    else if Main(ConfigPath) in w.files && Main(BackupPath) in w.files then Run(w, Failed)
    else
      var r := FreshRecord(w.files, o.target, o.binary.value);
      var begun := Begin(w, r);
      if !begun.ok then Run(begun.world, Failed) else Finish(Commit(begun.world, r, desired, o.binary.value), IsInstalled)
  }

  function InstallPrepared(w: World, o: Options): Run {
    var desired := Desired(w.files, o.target);
    if o.binary.None? || desired.None? then Run(w, Failed)
    else
      match ReadState(w.files, o.target)
      case BadState => Run(w, Failed)
      case NoState =>
        if Main(BinaryPath) in w.files then Run(w, Failed) else InstallOver(w, o, desired.value, None)
      case HaveState(r) =>
        var checked := CheckBackup(w, r, o.dryRun);
        if !checked.ok then Run(checked.world, Failed) else InstallOver(checked.world, o, desired.value, Some(r))
  }

  function Install(w: World, o: Options): Run {
    var ready := Prepare(w, o.dryRun);
    if !ready.ok then Run(ready.world, Failed) else InstallPrepared(ready.world, o)
  }

  // ----- uninstall -----

  /** removeHooks as text; an empty document is no text at all. */
  function Cleaned(root: Root): Option<Content>
    requires Remove(root).Ok?
  {
    if Remove(root).value == map[] then None else Some(Print(Remove(root).value))
  }

  predicate SameTree(a: Content, b: Content) {
    a.Text? && b.Text? && a.tree.Some? && a.tree == b.tree
  }

  /** restoration plus the onlyEmptyHooks case: what hooks.json is to become, None for no file. */
  function FinalConfig(files: Files, previous: Option<Record>, cleaned: Option<Content>): Option<Content> {
    if previous.Some? && previous.value.originalExists && HasBackup(files, previous.value) &&
       (cleaned.None? || SameTree(cleaned.value, files[Main(previous.value.backup.value)]))
    then Some(files[Main(previous.value.backup.value)])
    else if previous.Some? && !previous.value.originalExists && cleaned.Some? &&
            ParseRoot(cleaned.value).Some? && OnlyEmptyHooks(ParseRoot(cleaned.value).value)
    then None
    else cleaned
  }

  function PutConfig(w: World, content: Option<Content>): Io {
    if content.Some? then AtomicWrite(w, ConfigPath, content.value) else RemoveIfExists(w, ConfigPath)
  }

  function DropBackup(w: World, previous: Option<Record>): Io {
    if previous.Some? && previous.value.backup.Some? then RemoveIfExists(w, previous.value.backup.value) else Io(w, true)
  }

  /** Configuration, binary, backup, state: the state goes last. */
  function TakeDown(w: World, content: Option<Content>, previous: Option<Record>): Io {
    var a := PutConfig(w, content);
    if !a.ok then a
    else
      var b := RemoveIfExists(a.world, BinaryPath);
      if !b.ok then b
      else
        var c := DropBackup(b.world, previous);
        if !c.ok then c else RemoveIfExists(c.world, StatePath)
  }

  function UninstallOver(w: World, o: Options, previous: Option<Record>): Run {
    match ConfigRoot(w.files)
    case None => Run(w, Failed)
    case Some(root) =>
      if Remove(root).Err? then Run(w, Failed)
      else
        var cleaned := Cleaned(root);
        var removed := !NoneManaged(DecodeHooks(root).value);
        if previous.None? && Main(BinaryPath) in w.files then Run(w, Failed)
        else if previous.None? && !removed then Run(w, Done(IsNotInstalled))
        else if previous.Some? && !BackupMatches(w.files, previous.value) then Run(w, Failed)
        else if o.dryRun then Run(w, Done(IsPlanned))
        else Finish(TakeDown(w, FinalConfig(w.files, previous, cleaned), previous), IsNotInstalled)
  }

  function UninstallPrepared(w: World, o: Options): Run {
    if At(w.files, Main(ConfigPath)) == Some(Blank) then Run(w, Failed)
    else
      match ReadState(w.files, o.target)
      case BadState => Run(w, Failed)
      case NoState => UninstallOver(w, o, None)
      case HaveState(r) =>
        var checked := CheckBackup(w, r, o.dryRun);
        if !checked.ok then Run(checked.world, Failed) else UninstallOver(checked.world, o, Some(r))
  }

  function Uninstall(w: World, o: Options): Run {
    var ready := Prepare(w, o.dryRun);
    if !ready.ok then Run(ready.world, Failed) else UninstallPrepared(ready.world, o)
  }

  // ----- status -----

  function StatusOf(files: Files, target: Target): Outcome {
    if Interrupted(files) then Done(IsPartial)
    else
      match ConfigRoot(files)
      case None => Failed
      case Some(root) =>
        if DecodeHooks(root).Err? then Failed
        else
          var hooks := DecodeHooks(root).value;
          match ReadState(files, target)
          case BadState => Failed
          case NoState =>
            if Main(BinaryPath) !in files && NoneManaged(hooks) then Done(IsNotInstalled) else Done(IsPartial)
          case HaveState(r) =>
            if !BackupMatches(files, r) then Failed
            else if r.phase == Installed && At(files, Main(BinaryPath)) == Some(r.binaryDigest) && CompleteLayout(hooks, HOOK_EVENTS)
            then Done(IsInstalled)
            else Done(IsPartial)
  }
}
