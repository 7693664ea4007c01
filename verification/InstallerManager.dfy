/**
 The installer as it runs: file operations one after another on a disk, returning at the first
 error. Every method is tied to the function that says what it leaves.
 */
module InstallerManager {
  import opened Common
  import opened HookConfig
  import opened SwapFiles
  import opened Installer

  class Manager {
    var disk: World

    constructor (disk: World)
      ensures this.disk == disk
    {
      this.disk := disk;
    }

    // ----- file operations -----

    method Rename(from: Name, to: Name) returns (ok: bool)
      modifies this
      ensures Io(disk, ok) == RenameFile(old(disk), from, to)
    {
      if from !in disk.files {
        return false;
      }
      ok := Answer(disk);
      var content := disk.files[from];
      disk := Asked(disk);
      if ok {
        disk := disk.(files := (disk.files - {from})[to := content]);
      }
    }

    method Delete(name: Name) returns (ok: bool)
      modifies this
      ensures Io(disk, ok) == RemoveFile(old(disk), name)
    {
      if name !in disk.files {
        return false;
      }
      ok := Answer(disk);
      disk := Asked(disk);
      if ok {
        disk := disk.(files := disk.files - {name});
      }
    }

    method Write(name: Name, content: Content) returns (ok: bool)
      modifies this
      ensures Io(disk, ok) == WriteFile(old(disk), name, content)
    {
      ok := Answer(disk);
      disk := Asked(disk);
      if ok {
        disk := disk.(files := disk.files[name := content]);
      }
    }

    method Recover(path: Path) returns (ok: bool)
      modifies this
      ensures Io(disk, ok) == RecoverSwap(old(disk), path)
    {
      var targetExists, swapExists := Main(path) in disk.files, Swap(path) in disk.files;
      if !targetExists && swapExists {
        ok := Rename(Swap(path), Main(path));
        return;
      }
      if targetExists && swapExists {
        ok := Delete(Swap(path));
        return;
      }
      return true;
    }

    /** Moves the old file aside, the new one in, and drops the old one; puts it back if the new one cannot go in. */
    method Exchange(path: Path, temp: Name, payload: Content) returns (ok: bool)
      modifies this
      ensures Io(disk, ok) == FillAndSwap(old(disk), path, temp, payload)
    {
      ok := Write(temp, payload);
      if !ok {
        return;
      }
      if Main(path) in disk.files {
        ok := Rename(Main(path), Swap(path));
        if !ok {
          return;
        }
      }
      ok := Rename(temp, Main(path));
      if !ok {
        if Swap(path) in disk.files {
          var _ := Rename(Swap(path), Main(path));
        }
        return;
      }
      var _ := Delete(Swap(path));
    }

    method WriteAtomically(path: Path, payload: Content) returns (ok: bool)
      modifies this
      ensures Io(disk, ok) == AtomicWrite(old(disk), path, payload)
    {
      hide FillAndSwap, RecoverSwap;
      ok := Recover(path);
      if !ok {
        return;
      }
      if Main(path) in disk.files && disk.files[Main(path)] == payload {
        return;
      }
      ok := Answer(disk);
      disk := Asked(disk);
      if !ok {
        return;
      }
      var temp := Temp(path, disk.serial);
      ok := Write(temp, Blank);
      disk := disk.(serial := disk.serial + 1);
      if !ok {
        return;
      }
      ok := Exchange(path, temp, payload);
      var _ := Delete(temp);
    }

    method DeleteIfExists(path: Path) returns (ok: bool)
      modifies this
      ensures Io(disk, ok) == RemoveIfExists(old(disk), path)
    {
      if Main(path) !in disk.files {
        return true;
      }
      ok := Delete(Main(path));
    }

    // ----- shared parts of the commands -----

    method RecoverAll() returns (ok: bool)
      modifies this
      ensures Io(disk, ok) == RecoverTarget(old(disk))
    {
      hide RecoverSwap;
      var paths := [ConfigPath, StatePath, BackupPath, BinaryPath];
      ok := Recover(paths[0]);
      if ok { ok := Recover(paths[1]); }
      if ok { ok := Recover(paths[2]); }
      if ok { ok := Recover(paths[3]); }
    }

    method Ready(dryRun: bool) returns (ok: bool)
      modifies this
      ensures Io(disk, ok) == Prepare(old(disk), dryRun)
    {
      hide RecoverTarget;
      if dryRun {
        return !Interrupted(disk.files);
      }
      ok := RecoverAll();
    }

    method EnsureBackupOf(r: Record) returns (ok: bool)
      modifies this
      ensures Io(disk, ok) == EnsureBackup(old(disk), r)
    {
      hide AtomicWrite, NoneManaged, CompleteLayout;
      if !r.originalExists {
        return true;
      }
      if HasBackup(disk.files, r) {
        return Some(disk.files[Main(r.backup.value)]) == r.originalDigest;
      }
      if r.phase != Installing || At(disk.files, Main(ConfigPath)) != r.originalDigest {
        return false;
      }
      var root := ConfigRoot(disk.files);
      if Main(ConfigPath) !in disk.files || root.None? || DecodeHooks(root.value).Err? {
        return false;
      }
      HookEventsDistinct();
      var count, _ := ManagedHookLayout(DecodeHooks(root.value).value, HOOK_EVENTS);
      if count != 0 || r.backup.None? {
        return false;
      }
      ok := WriteAtomically(r.backup.value, disk.files[Main(ConfigPath)]);
    }

    method BackupOf(r: Record, dryRun: bool) returns (ok: bool)
      modifies this
      ensures Io(disk, ok) == CheckBackup(old(disk), r, dryRun)
    {
      hide EnsureBackup;
      if dryRun {
        return BackupMatches(disk.files, r);
      }
      ok := EnsureBackupOf(r);
    }

    // ----- the commands -----

    method CommitFiles(r: Record, desired: Content, binary: Content) returns (ok: bool)
      modifies this
      ensures Io(disk, ok) == Commit(old(disk), r, desired, binary)
    {
      hide AtomicWrite;
      ok := WriteAtomically(BinaryPath, binary);
      if !ok {
        return;
      }
      ok := WriteAtomically(ConfigPath, desired);
      if !ok {
        return;
      }
      ok := WriteAtomically(StatePath, StateText(r.(phase := Installed, binaryDigest := binary)));
    }

    method Replace(o: Options, desired: Content, previous: Option<Record>) returns (outcome: Outcome)
      requires o.binary.Some?
      modifies this
      ensures Run(disk, outcome) == InstallOver(old(disk), o, desired, previous)
    {
      hide AtomicWrite, Commit, EnsureBackup;
      var binary := o.binary.value;
      if Current(disk.files, desired, binary, previous) {
        return Done(IsInstalled);
      }
      if o.dryRun {
        return Done(IsPlanned);
      }
      var r;
      if previous.Some? {
        r := previous.value;
      } else {
        if Main(ConfigPath) in disk.files && Main(BackupPath) in disk.files {
          return Failed;
        }
        r := FreshRecord(disk.files, o.target, binary);
        var written := WriteAtomically(StatePath, StateText(r));
        if !written {
          return Failed;
        }
        var ensured := EnsureBackupOf(r);
        if !ensured {
          return Failed;
        }
      }
      var ok := CommitFiles(r, desired, binary);
      outcome := if ok then Done(IsInstalled) else Failed;
    }

    method RunInstall(o: Options) returns (outcome: Outcome)
      modifies this
      ensures Run(disk, outcome) == Install(old(disk), o)
    {
      hide Prepare, InstallOver, CheckBackup, Merge;
      var ok := Ready(o.dryRun);
      if !ok {
        return Failed;
      }
      var root := ConfigRoot(disk.files);
      if o.binary.None? || root.None? {
        return Failed;
      }
      HookEventsDistinct();
      var merged, _ := MergeHooks(root.value, o.target.binaryPath, HOOK_EVENTS);
      if merged.Err? {
        return Failed;
      }
      var previous := None;
      match ReadState(disk.files, o.target) {
        case BadState =>
          return Failed;
        case NoState =>
          if Main(BinaryPath) in disk.files {
            return Failed;
          }
        case HaveState(r) =>
          ok := BackupOf(r, o.dryRun);
          if !ok {
            return Failed;
          }
          previous := Some(r);
      }
      outcome := Replace(o, Print(merged.value), previous);
    }

    method RemoveFiles(content: Option<Content>, previous: Option<Record>) returns (ok: bool)
      modifies this
      ensures Io(disk, ok) == TakeDown(old(disk), content, previous)
    {
      hide AtomicWrite, RemoveIfExists;
      if content.Some? {
        ok := WriteAtomically(ConfigPath, content.value);
      } else {
        ok := DeleteIfExists(ConfigPath);
      }
      if !ok {
        return;
      }
      ok := DeleteIfExists(BinaryPath);
      if !ok {
        return;
      }
      if previous.Some? && previous.value.backup.Some? {
        ok := DeleteIfExists(previous.value.backup.value);
        if !ok {
          return;
        }
      }
      ok := DeleteIfExists(StatePath);
    }

    method RunUninstall(o: Options) returns (outcome: Outcome)
      modifies this
      ensures Run(disk, outcome) == Uninstall(old(disk), o)
    {
      hide Prepare, CheckBackup, TakeDown, Remove, FinalConfig, NoneManaged, DecodeHooks;
      var ok := Ready(o.dryRun);
      if !ok || At(disk.files, Main(ConfigPath)) == Some(Blank) {
        return Failed;
      }
      var previous := None;
      var read := ReadState(disk.files, o.target);
      if read.BadState? {
        return Failed;
      }
      if read.HaveState? {
        ok := BackupOf(read.record, o.dryRun);
        if !ok {
          return Failed;
        }
        previous := Some(read.record);
      }
      var root := ConfigRoot(disk.files);
      if root.None? {
        return Failed;
      }
      var result, removed := RemoveHooks(root.value);
      if result.Err? {
        return Failed;
      }
      var cleaned := if result.value == map[] then None else Some(Print(result.value));
      if previous.None? {
        if Main(BinaryPath) in disk.files {
          return Failed;
        }
        if removed == 0 {
          return Done(IsNotInstalled);
        }
      } else if !BackupMatches(disk.files, previous.value) {
        return Failed;
      }
      if o.dryRun {
        return Done(IsPlanned);
      }
      ok := RemoveFiles(FinalConfig(disk.files, previous, cleaned), previous);
      outcome := if ok then Done(IsNotInstalled) else Failed;
    }

    method ReportStatus(target: Target) returns (outcome: Outcome)
      ensures outcome == StatusOf(disk.files, target)
    {
      hide NoneManaged, CompleteLayout;
      if Interrupted(disk.files) {
        return Done(IsPartial);
      }
      var root := ConfigRoot(disk.files);
      if root.None? || DecodeHooks(root.value).Err? {
        return Failed;
      }
      HookEventsDistinct();
      var count, complete := ManagedHookLayout(DecodeHooks(root.value).value, HOOK_EVENTS);
      var read := ReadState(disk.files, target);
      if read.BadState? || (read.HaveState? && !BackupMatches(disk.files, read.record)) {
        return Failed;
      }
      if read.NoState? && Main(BinaryPath) !in disk.files && count == 0 {
        return Done(IsNotInstalled);
      }
      if read.HaveState? && read.record.phase == Installed && At(disk.files, Main(BinaryPath)) == Some(read.record.binaryDigest) && complete {
        return Done(IsInstalled);
      }
      return Done(IsPartial);
    }
  }
}
