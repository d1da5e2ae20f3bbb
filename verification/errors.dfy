// Which error a namespace call fails with on a tree of directories and files.
module PlainErrors {
  import opened Common
  import opened Paths
  import opened ChunkStore
  import opened Tables
  import opened Resolution
  import opened Namespace
  import opened RenamePaths
  import opened MadeParents
  import opened RenameExact
  import opened PlainView

  // What is missing at a path: a file is in the way, or nothing is there.
  ghost function MissingError(s: State, path: Components): Errno {
    if Blocked(s, path) then ENOTDIR else ENOENT
  }

  // Looking up the parent, and the entry in it.
  lemma ParentEntry(s: State, path: Components)
    requires Plain(s) && Clean(path) && path != []
    ensures var parent := ParentOf(path); var at := Lookup(s, parent);
      if View(s, parent).None? then at == Err(MissingError(s, parent)) && View(s, path).None?
      else
        && at.Ok? && Walk(s, ROOT, parent) == Some(at.value) && (IsDir(s, at.value) <==> View(s, parent) == Some(Dir))
        && (Slot(at.value, NameOf(path)) in s.dentries <==> View(s, path).Some?)
        && (View(s, path).Some? ==>
              var ino := s.dentries[Slot(at.value, NameOf(path))];
              && ino in s.inodes && Walk(s, ROOT, path) == Some(ino) && (IsDir(s, ino) <==> View(s, path) == Some(Dir)))
  {
    var parent := ParentOf(path);
    ParentOfClean(path);
    LookupView(s, parent);
    ViewExists(s, parent);
    ViewExists(s, path);
    WalkSnoc(s, ROOT, parent, NameOf(path));
    if Walk(s, ROOT, path).Some? {
      WalkLive(s, ROOT, path);
    }
  }

  lemma MkdirError(s: State, path: Components, mode: int)
    requires Plain(s) && Clean(path) && Mkdir(s, path, mode).1.Failed?
    ensures Mkdir(s, path, mode).1.errno ==
      if path == [] then EEXIST
      else if NameTooLong(path) then ENAMETOOLONG
      else if View(s, ParentOf(path)).None? then MissingError(s, ParentOf(path))
      else if View(s, ParentOf(path)) != Some(Dir) then ENOTDIR
      else EEXIST
  {
    if path != [] {
      ParentEntry(s, path);
    }
  }

  lemma MknodError(s: State, path: Components, mode: int, rdev: int)
    requires Plain(s) && Clean(path) && Mknod(s, path, mode, rdev).1.Failed?
    ensures Mknod(s, path, mode, rdev).1.errno ==
      if path == [] then EPERM
      else if NameTooLong(path) then ENAMETOOLONG
      else if TypeBits(mode) !in {FIFO, CHR, BLK, SOCK} then EINVAL
      else if View(s, ParentOf(path)).None? then MissingError(s, ParentOf(path))
      else if View(s, ParentOf(path)) != Some(Dir) then ENOTDIR
      else EEXIST
  {
    if path != [] {
      ParentEntry(s, path);
    }
  }

  // An Unlink below a file answers ENOENT, not ENOTDIR.
  lemma UnlinkError(s: State, path: Components)
    requires Plain(s) && Clean(path) && Unlink(s, path).1.Failed?
    ensures Unlink(s, path).1.errno ==
      if path == [] then EPERM
      else if View(s, ParentOf(path)).None? then MissingError(s, ParentOf(path))
      else if View(s, path).None? then ENOENT
      else EISDIR
  {
    if path != [] {
      ParentEntry(s, path);
    }
  }

  lemma RmdirError(s: State, path: Components)
    requires Plain(s) && Clean(path) && Rmdir(s, path).1.Failed?
    ensures Rmdir(s, path).1.errno ==
      if path == [] then EPERM
      else if View(s, ParentOf(path)).None? then MissingError(s, ParentOf(path))
      else if View(s, path).None? then ENOENT
      else if View(s, path) != Some(Dir) then ENOTDIR
      else ENOTEMPTY
  {
    if path != [] {
      ParentEntry(s, path);
    }
  }

  // The first component from i on that is no directory and cannot be made one.
  ghost predicate StopsAt(s: State, path: Components, i: nat, j: nat) {
    i < j <= |path| && !Fits(s, path[..j]) && AllFit(s, path, i, j - 1)
  }

  ghost predicate StopError(s: State, path: Components, i: nat, e: Errno) {
    exists j: nat :: StopsAt(s, path, i, j) && e == ErrorAt(s, path[..j])
  }

  ghost function ErrorAt(s: State, x: Components): Errno {
    if View(s, x).Some? then ENOTDIR else ENAMETOOLONG
  }

  lemma StopsLater(s: State, t: State, path: Components, i: nat, e: Errno)
    requires i < |path| && Fits(s, path[..i + 1]) && StopError(t, path, i + 1, e)
    requires forall q :: q != path[..i + 1] ==> View(t, q) == View(s, q)
    ensures StopError(s, path, i, e)
  {
    var j: nat :| StopsAt(t, path, i + 1, j) && e == ErrorAt(t, path[..j]);
    RestFits(s, t, path, i, j - 1);
    assert path[..j] != path[..i + 1];
    assert StopsAt(s, path, i, j);
  }

  lemma RoundError(s: State, x: Components, mode: int)
    requires Plain(s) && Clean(x) && x != [] && View(s, ParentOf(x)) == Some(Dir) && EnsureDir(s, x, mode).1.Failed?
    ensures !Fits(s, x) && EnsureDir(s, x, mode).1.errno == ErrorAt(s, x)
  {
    RoundFits(s, x, mode);
    LookupView(s, x);
    ViewExists(s, x);
    ParentOfClean(x);
    DirsNotBlocked(s, x);
    if View(s, x).None? {
      MkdirError(s, x, mode);
    }
  }

  // MkdirAll fails at the first component that is a file, or has to be made and has too long a name.
  lemma {:induction false} MkdirAllError(s: State, path: Components, i: nat, mode: int)
    requires Plain(s) && Clean(path) && i <= |path| && View(s, path[..i]) == Some(Dir)
    requires MkdirAllFrom(s, path, i, mode).1.Failed?
    ensures StopError(s, path, i, MkdirAllFrom(s, path, i, mode).1.errno)
    decreases |path| - i
  {
    var x := path[..i + 1];
    RenormalizeIsClean(x);
    ParentOfClean(x);
    assert x[..i] == path[..i];
    RoundFits(s, x, mode);
    var (t, r) := EnsureDir(s, x, mode);
    if r.Failed? {
      RoundError(s, x, mode);
      assert StopsAt(s, path, i, i + 1);
    } else {
      assert MkdirAllFrom(s, path, i, mode) == MkdirAllFrom(t, path, i + 1, mode);
      MkdirAllError(t, path, i + 1, mode);
      StopsLater(s, t, path, i, MkdirAllFrom(s, path, i, mode).1.errno);
    }
  }

  // The parent that a creating call makes.
  lemma ParentError(s: State, path: Components)
    requires Plain(s) && Clean(path)
    ensures var (t, r) := MkdirAll(s, ParentOf(path), 0x1ed); var parent := ParentOf(path);
      && (r.Failed? <==> !AllFit(s, parent, 0, |parent|)) && (r.Failed? ==> StopError(s, parent, 0, r.errno))
      && Plain(t)
      && (r.Done? && path != [] ==>
            && Lookup(t, parent).Ok? && IsDir(t, Lookup(t, parent).value) && View(t, path) == View(s, path)
            && (forall n :: View(t, path + [n]) == View(s, path + [n])))
  {
    ParentClean(path);
    var parent := ParentOf(path);
    ViewExists(s, []);
    assert parent[..0] == [];
    MkdirAllFits(s, parent, 0, 0x1ed);
    MkdirAllLaw(s, parent, 0x1ed);
    var (t, r) := MkdirAll(s, parent, 0x1ed);
    if r.Failed? {
      MkdirAllError(s, parent, 0, 0x1ed);
    } else {
      LookupView(t, parent);
      ViewExists(t, parent);
      if path != [] { ParentOfClean(path); }
    }
  }

  // WriteFile: a too long name, what stops the parents, or a directory at the path.
  lemma WriteFileError(s: State, path: Components, data: Bytes, mode: int)
    requires Plain(s) && Clean(path) && path != [] && WriteFile(s, path, data, mode).1.Failed?
    ensures var e, parent := WriteFile(s, path, data, mode).1.errno, ParentOf(path);
      if NameTooLong(path) then e == ENAMETOOLONG
      else if !AllFit(s, parent, 0, |parent|) then StopError(s, parent, 0, e)
      else e == EISDIR
  {
    ParentError(s, path);
    var t := MkdirAll(s, ParentOf(path), 0x1ed).0;
    ParentEntry(t, path);
  }

  // Symlink and Link: something at the new path; Link of a directory is refused, whatever else.
  lemma SymlinkError(s: State, target: string, path: Components)
    requires Plain(s) && Clean(path) && path != [] && Symlink(s, target, path).1.Failed?
    ensures var e, parent := Symlink(s, target, path).1.errno, ParentOf(path);
      if NameTooLong(path) then e == ENAMETOOLONG
      else if !AllFit(s, parent, 0, |parent|) then StopError(s, parent, 0, e)
      else e == EEXIST
  {
    ParentError(s, path);
    ParentEntry(MkdirAll(s, ParentOf(path), 0x1ed).0, path);
  }

  lemma LinkError(s: State, existing: Components, path: Components)
    requires Plain(s) && Clean(existing) && Clean(path) && path != [] && Link(s, existing, path).1.Failed?
    ensures var e, parent := Link(s, existing, path).1.errno, ParentOf(path);
      if NameTooLong(path) then e == ENAMETOOLONG
      else if View(s, existing).None? then e == MissingError(s, existing)
      else if View(s, existing) == Some(Dir) then e == EPERM
      else if !AllFit(s, parent, 0, |parent|) then StopError(s, parent, 0, e)
      else e == EEXIST
  {
    LookupView(s, existing);
    ViewExists(s, existing);
    if Walk(s, ROOT, existing).Some? { WalkLive(s, ROOT, existing); }
    ParentError(s, path);
    ParentEntry(MkdirAll(s, ParentOf(path), 0x1ed).0, path);
  }

  // What is at the new path of a Rename and cannot be replaced.
  lemma ClearError(t: State, ino: int, to: Slot, newPath: Components)
    requires Plain(t) && Clean(newPath) && newPath != [] && ino in t.inodes
    requires Lookup(t, ParentOf(newPath)) == Ok(to.parent) && to.name == NameOf(newPath)
    requires ClearDestination(t, ino, to, newPath).1.Failed?
    ensures View(t, newPath).Some?
    ensures ClearDestination(t, ino, to, newPath).1.errno == (
      if View(t, newPath) != Some(Dir) then ENOTDIR else if !IsDir(t, ino) then EISDIR else ENOTEMPTY)
  {
    ParentEntry(t, newPath);
  }

  // What is left to go wrong once the old path is found.
  lemma RenameLateError(s: State, oldPath: Components, newPath: Components)
    requires Plain(s) && Clean(oldPath) && Clean(newPath) && oldPath != [] && newPath != [] && !NameTooLong(newPath)
    requires !StrictPrefix(oldPath, newPath) && View(s, oldPath).Some? && Rename(s, oldPath, newPath).1.Failed?
    ensures LateError(s, oldPath, newPath, Rename(s, oldPath, newPath).1.errno)
  {
    PrefixTestIsSubtree(oldPath, newPath);
    FoundOld(s, oldPath);
    ParentError(s, newPath);
    ParentMade(s, newPath);
    var parent, ino := ParentOf(newPath), s.dentries[EntrySlot(s, oldPath)];
    var (t, r) := MkdirAll(s, parent, 0x1ed);
    assert StageOf(s, oldPath, newPath) ==
      if r.Failed? then ParentReady else Cleared(ino, Slot(Lookup(t, parent).value, NameOf(newPath)));
    if r.Done? {
      var to := Slot(Lookup(t, parent).value, NameOf(newPath));
      assert Rename(s, oldPath, newPath).1 == ClearDestination(t, ino, to, newPath).1;
      ClearError(t, ino, to, newPath);
    } else {
      assert Rename(s, oldPath, newPath).1 == r;
    }
  }

  ghost predicate LateError(s: State, oldPath: Components, newPath: Components, e: Errno) {
    var parent := ParentOf(newPath);
    if !AllFit(s, parent, 0, |parent|) then StopError(s, parent, 0, e)
    else if View(s, newPath) != Some(Dir) then e == ENOTDIR
    else if View(s, oldPath) != Some(Dir) then e == EISDIR
    else e == ENOTEMPTY
  }

  lemma FoundOld(s: State, path: Components)
    requires Plain(s) && Clean(path) && path != [] && View(s, path).Some?
    ensures Lookup(s, ParentOf(path)).Ok? && EntrySlot(s, path) in s.dentries
    ensures var ino := s.dentries[EntrySlot(s, path)]; ino in s.inodes && (IsDir(s, ino) <==> View(s, path) == Some(Dir))
  {
    ParentEntry(s, path);
  }

  // Rename, in the order of its tests.
  lemma RenameError(s: State, oldPath: Components, newPath: Components)
    requires Plain(s) && Clean(oldPath) && Clean(newPath) && Rename(s, oldPath, newPath).1.Failed?
    ensures var e := Rename(s, oldPath, newPath).1.errno;
      if oldPath == [] || newPath == [] then e == EPERM
      else if NameTooLong(newPath) then e == ENAMETOOLONG
      else if StrictPrefix(oldPath, newPath) then e == EINVAL
      else if View(s, ParentOf(oldPath)).None? then e == MissingError(s, ParentOf(oldPath))
      else if View(s, oldPath).None? then e == ENOENT
      else LateError(s, oldPath, newPath, e)
  {
    if oldPath != [] && newPath != [] && !NameTooLong(newPath) {
      PrefixTestIsSubtree(oldPath, newPath);
      if View(s, oldPath).Some? && !StrictPrefix(oldPath, newPath) {
        RenameLateError(s, oldPath, newPath);
        FoundOld(s, oldPath);
        ViewExists(s, oldPath);
      }
      ParentEntry(s, oldPath);
    }
  }
}

// The same for the overlay, told from what it shows.
module OverlayErrors {
  import opened Common
  import opened Paths
  import opened ChunkStore
  import opened Tables
  import opened Resolution
  import NS = Namespace
  import opened PlainView
  import opened Overlay
  import opened OverlayLaws
  import PE = PlainErrors

  lemma UnlinkError(o: Layers, p: Components)
    requires Inv(o) && Clean(p) && Unlink(o, p).1.Failed?
    ensures Unlink(o, p).1.errno == if p == [] then EPERM else if Shown(o, p).None? then ENOENT else EISDIR
  {
    if p != [] {
      UnlinkLawful(o, p);
      LookupPathShown(o, p);
    }
  }

  lemma RmdirError(o: Layers, p: Components)
    requires Inv(o) && Clean(p) && Rmdir(o, p).1.Failed?
    ensures Rmdir(o, p).1.errno ==
      if p == [] then EPERM
      else if Shown(o, p).None? then ENOENT
      else if Shown(o, p) != Some(Dir) then ENOTDIR
      else ENOTEMPTY
  {
    if p != [] {
      RmdirLawful(o, p);
      LookupPathShown(o, p);
      if Shown(o, p) == Some(Dir) {
        NotBlocked(o, p);
        RmdirLaw(o.delta, p);
        ListsNothingShown(o, p);
      }
    }
  }

  // What is shown is in the way; else the delta alone decides, so a parent that only the base has is
  // missing.
  lemma MkdirError(o: Layers, p: Components, mode: int)
    requires Inv(o) && Clean(p) && Mkdir(o, p, mode).1.Failed?
    ensures var parent := ParentOf(p);
      Mkdir(o, p, mode).1.errno ==
        if Shown(o, p).Some? then EEXIST
        else if NS.NameTooLong(p) then ENAMETOOLONG
        else if View(o.delta, parent).None? then PE.MissingError(o.delta, parent)
        else ENOTDIR
  {
    LookupPathShown(o, p);
    if p == [] {
      ShownRoot(o);
    } else {
      MkdirFails(o, p, mode);
      if Shown(o, p).None? {
        PE.MkdirError(o.delta, p, mode);
        MkdirLaw(o.delta, p, mode);
      }
    }
  }

  lemma MkdirFails(o: Layers, p: Components, mode: int)
    requires Inv(o) && Clean(p) && p != [] && Mkdir(o, p, mode).1.Failed?
    ensures Shown(o, p).Some? ==> Mkdir(o, p, mode).1.errno == EEXIST
    ensures Shown(o, p).None? ==>
      NS.Mkdir(o.delta, p, mode).1.Failed? && Mkdir(o, p, mode).1 == NS.Mkdir(o.delta, p, mode).1 && View(o.delta, p).None?
  {
    var o1 := RemoveWhiteout(o, p);
    LookupPathShown(o, p);
    LookupView(o.delta, p);
    ViewExists(o.delta, p);
    if IsWhiteout(o.whiteouts, p) {
      NothingUnderWhiteout(o, p);
    } else {
      assert o1.whiteouts == o.whiteouts;
    }
  }
}
