/**
 The swap-file writes of internal/adapters/codex/install/files.go over a map of files.

 Every operation that changes the file system asks the world whether it takes effect.
 A crash is the case where no later operation does.
 */
module SwapFiles {
  import opened Common
  import opened HookConfig

  datatype Path = ConfigPath | StatePath | BackupPath | BinaryPath

  datatype Name = Main(path: Path) | Swap(path: Path) | Temp(path: Path, serial: nat)

  datatype Target = Target(scope: string, configPath: string, binaryPath: string)

  datatype Phase = Installing | Installed | OtherPhase(name: string)

  /** A digest is the content it was taken from: hashing is treated as injective. */
  datatype Record = Record(
    version: nat,
    installId: string,
    target: Target,
    phase: Phase,
    originalExists: bool,
    originalDigest: Option<Content>,
    backup: Option<Path>,
    binaryDigest: Content)

  /** File bytes: JSON text is its layout plus what it parses to, if it parses. */
  datatype Content =
    | Blank
    | Text(layout: nat, tree: Option<Json>)
    | Program(image: nat)
    | StateText(record: Record)

  type Files = map<Name, Content>

  /** plan answers the next operations one by one; tail answers all operations after it. */
  datatype World = World(files: Files, plan: seq<bool>, tail: bool, serial: nat)

  datatype Io = Io(world: World, ok: bool)

  predicate FaultFree(w: World) {
    w.plan == [] && w.tail
  }

  function Answer(w: World): bool {
    if w.plan == [] then w.tail else w.plan[0]
  }

  function Asked(w: World): World {
    if w.plan == [] then w else w.(plan := w.plan[1..])
  }

  function RenameFile(w: World, from: Name, to: Name): Io {
    if from !in w.files then Io(w, false)
    else if Answer(w) then Io(Asked(w).(files := (w.files - {from})[to := w.files[from]]), true)
    else Io(Asked(w), false)
  }

  function RemoveFile(w: World, name: Name): Io {
    if name !in w.files then Io(w, false)
    else if Answer(w) then Io(Asked(w).(files := w.files - {name}), true)
    else Io(Asked(w), false)
  }

  function WriteFile(w: World, name: Name, content: Content): Io {
    if Answer(w) then Io(Asked(w).(files := w.files[name := content]), true)
    else Io(Asked(w), false)
  }

  function MakeDirs(w: World): Io {
    Io(Asked(w), Answer(w))
  }

  function CreateTemp(w: World, path: Path): Io {
    var r := WriteFile(w, Temp(path, w.serial), Blank);
    Io(r.world.(serial := w.serial + 1), r.ok)
  }

  /** removeIfExists: a missing file is no error. */
  function RemoveIfExists(w: World, path: Path): Io {
    if Main(path) !in w.files then Io(w, true) else RemoveFile(w, Main(path))
  }

  function RecoverSwap(w: World, path: Path): Io {
    if Swap(path) !in w.files then Io(w, true)
    else if Main(path) !in w.files then RenameFile(w, Swap(path), Main(path))
    else RemoveFile(w, Swap(path))
  }

  function MoveAside(w: World, path: Path): Io {
    if Main(path) in w.files then RenameFile(w, Main(path), Swap(path)) else Io(w, true)
  }

  /** Renames the finished temporary file into place, putting the old file back when that fails. */
  function Place(w: World, path: Path, temp: Name): Io {
    var placed := RenameFile(w, temp, Main(path));
    if placed.ok then Io(RemoveFile(placed.world, Swap(path)).world, true)
    else if Swap(path) in placed.world.files then Io(RenameFile(placed.world, Swap(path), Main(path)).world, false)
    else placed
  }

  /** What atomicWrite does once its temporary file exists. */
  function FillAndSwap(w: World, path: Path, temp: Name, content: Content): Io {
    var filled := WriteFile(w, temp, content);
    if !filled.ok then filled
    else
      var aside := MoveAside(filled.world, path);
      if !aside.ok then aside else Place(aside.world, path, temp)
  }

  function AtomicWrite(w: World, path: Path, content: Content): Io {
    var recovered := RecoverSwap(w, path);
    if !recovered.ok then recovered
    else if Main(path) in recovered.world.files && recovered.world.files[Main(path)] == content then recovered
    else
      var dirs := MakeDirs(recovered.world);
      if !dirs.ok then dirs
      else
        var created := CreateTemp(dirs.world, path);
        if !created.ok then created
        else
          var temp := Temp(path, dirs.world.serial);
          var done := FillAndSwap(created.world, path, temp, content);
          Io(RemoveFile(done.world, temp).world, done.ok)
  }

  // ----- what recovery would see -----

  function At(files: Files, name: Name): Option<Content> {
    if name in files then Some(files[name]) else None
  }

  /** The content of a path once an interrupted swap has been recovered. */
  function View(files: Files, path: Path): Option<Content> {
    if Main(path) in files then At(files, Main(path)) else At(files, Swap(path))
  }

  ghost predicate SameOutside(before: Files, after: Files, path: Path) {
    forall q :: q != path ==> At(before, Main(q)) == At(after, Main(q)) && At(before, Swap(q)) == At(after, Swap(q))
  }

  lemma SameOutsideTransitive(a: Files, b: Files, c: Files, path: Path)
    requires SameOutside(a, b, path) && SameOutside(b, c, path)
    ensures SameOutside(a, c, path)
  {
  }

  predicate NoSwap(files: Files) {
    forall q :: Swap(q) !in files
  }

  /** Recovering never changes what is seen, and a successful recovery leaves no swap file. */
  lemma RecoverSwapLaw(w: World, path: Path)
    ensures var r := RecoverSwap(w, path);
            && SameOutside(w.files, r.world.files, path)
            && View(r.world.files, path) == View(w.files, path)
            && (r.ok ==> Swap(path) !in r.world.files)
            && (Swap(path) !in w.files ==> r == Io(w, true))
            && (FaultFree(w) ==> r.ok && FaultFree(r.world))
  {
  }

  ghost predicate WriteLaw(w: World, r: Io, path: Path, content: Content) {
    && SameOutside(w.files, r.world.files, path)
    && (View(r.world.files, path) == View(w.files, path) || View(r.world.files, path) == Some(content))
    && (r.ok ==> Main(path) in r.world.files && r.world.files[Main(path)] == content)
    && (View(w.files, path) == None ==> Swap(path) !in r.world.files)
    && (FaultFree(w) ==> r.ok && FaultFree(r.world) && Swap(path) !in r.world.files)
  }

  /** Equal but for temporary files. */
  ghost predicate SameSeen(before: Files, after: Files) {
    forall n: Name :: !n.Temp? ==> At(before, n) == At(after, n)
  }

  lemma PlaceLaw(w: World, path: Path, temp: Name)
    requires temp.Temp? && temp in w.files && Main(path) !in w.files
    ensures var r := Place(w, path, temp);
            && SameOutside(w.files, r.world.files, path)
            && (!r.ok ==> View(r.world.files, path) == View(w.files, path))
            && (r.ok ==> Main(path) in r.world.files && r.world.files[Main(path)] == w.files[temp])
            && (Swap(path) in r.world.files ==> Swap(path) in w.files)
            && (FaultFree(w) ==> r.ok && FaultFree(r.world) && Swap(path) !in r.world.files && temp !in r.world.files)
  {
    var placed := RenameFile(w, temp, Main(path));
    assert SameOutside(w.files, placed.world.files, path);
    assert placed.ok ==> placed.world.files[Main(path)] == w.files[temp];
    assert FaultFree(w) ==> FaultFree(placed.world);
  }

  lemma MoveAsideLaw(w: World, path: Path)
    requires Swap(path) !in w.files
    ensures var r := MoveAside(w, path);
            && SameOutside(w.files, r.world.files, path)
            && View(r.world.files, path) == View(w.files, path)
            && (r.ok ==> Main(path) !in r.world.files)
            && (Swap(path) in r.world.files ==> Main(path) in w.files)
            && (FaultFree(w) ==> r.ok && FaultFree(r.world))
            && (forall n: Name :: n.Temp? ==> At(w.files, n) == At(r.world.files, n))
  {
  }

  lemma FillAndSwapLaw(w: World, path: Path, temp: Name, content: Content)
    requires temp.Temp? && Swap(path) !in w.files
    ensures WriteLaw(w, FillAndSwap(w, path, temp, content), path, content)
    ensures FaultFree(w) ==> temp !in FillAndSwap(w, path, temp, content).world.files
  {
    hide RenameFile, Place, MoveAside, SameOutside;
    var filled := WriteFile(w, temp, content);
    WriteTempLaw(w, temp, content, path);
    if filled.ok {
      MoveAsideLaw(filled.world, path);
      var aside := MoveAside(filled.world, path);
      SameOutsideTransitive(w.files, filled.world.files, aside.world.files, path);
      if aside.ok {
        assert At(aside.world.files, temp) == Some(content);
        PlaceLaw(aside.world, path, temp);
        SameOutsideTransitive(w.files, aside.world.files, Place(aside.world, path, temp).world.files, path);
      }
    }
  }

  lemma WriteTempLaw(w: World, temp: Name, content: Content, path: Path)
    requires temp.Temp?
    ensures var r := WriteFile(w, temp, content);
            && SameOutside(w.files, r.world.files, path)
            && SameSeen(w.files, r.world.files)
            && (r.ok ==> At(r.world.files, temp) == Some(content))
            && (FaultFree(w) ==> r.ok && FaultFree(r.world))
  {
  }

  lemma DiscardLaw(w: World, temp: Name)
    requires temp.Temp?
    ensures SameSeen(w.files, RemoveFile(w, temp).world.files)
    ensures FaultFree(w) ==> FaultFree(RemoveFile(w, temp).world)
  {
  }

  lemma WriteLawFrom(start: World, w: World, r: Io, path: Path, content: Content)
    requires SameOutside(start.files, w.files, path) && View(start.files, path) == View(w.files, path)
    requires FaultFree(start) ==> FaultFree(w)
    requires WriteLaw(w, r, path, content)
    ensures WriteLaw(start, r, path, content)
  {
    SameOutsideTransitive(start.files, w.files, r.world.files, path);
  }

  lemma WriteLawThenDiscard(w: World, r: Io, temp: Name, path: Path, content: Content)
    requires temp.Temp? && WriteLaw(w, r, path, content)
    ensures WriteLaw(w, Io(RemoveFile(r.world, temp).world, r.ok), path, content)
  {
    DiscardLaw(r.world, temp);
    var files := RemoveFile(r.world, temp).world.files;
    assert At(files, Main(path)) == At(r.world.files, Main(path)) && At(files, Swap(path)) == At(r.world.files, Swap(path));
    assert SameOutside(r.world.files, files, path);
    SameOutsideTransitive(w.files, r.world.files, files, path);
  }

  /** However it ends, a write shows the old content or the new one, and touches no other path. */
  lemma AtomicWriteLaw(w: World, path: Path, content: Content)
    ensures WriteLaw(w, AtomicWrite(w, path, content), path, content)
  {
    hide RenameFile, RemoveFile, RecoverSwap, FillAndSwap, SameOutside;
    RecoverSwapLaw(w, path);
    var recovered := RecoverSwap(w, path);
    if recovered.ok && !(Main(path) in recovered.world.files && recovered.world.files[Main(path)] == content) {
      var dirs := MakeDirs(recovered.world);
      var temp := Temp(path, dirs.world.serial);
      WriteTempLaw(dirs.world, temp, Blank, path);
      var created := CreateTemp(dirs.world, path);
      assert At(created.world.files, Main(path)) == At(dirs.world.files, Main(path));
      assert At(created.world.files, Swap(path)) == At(dirs.world.files, Swap(path));
      SameOutsideTransitive(w.files, recovered.world.files, created.world.files, path);
      FillAndSwapLaw(created.world, path, temp, content);
      var done := FillAndSwap(created.world, path, temp, content);
      WriteLawThenDiscard(created.world, done, temp, path, content);
      WriteLawFrom(w, created.world, Io(RemoveFile(done.world, temp).world, done.ok), path, content);
    }
  }

  lemma RemoveLaw(w: World, path: Path)
    ensures var r := RemoveIfExists(w, path);
            && SameOutside(w.files, r.world.files, path)
            && (r.ok ==> Main(path) !in r.world.files)
            && (!r.ok ==> r.world.files == w.files)
            && (Swap(path) in r.world.files <==> Swap(path) in w.files)
            && (FaultFree(w) ==> r.ok && FaultFree(r.world))
  {
  }
}
