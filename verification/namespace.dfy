// The namespace operations of Filesystem as functions on the tables, and the
// invariant every run of them keeps.
module Namespace {
  import opened Common
  import opened Paths
  import opened ChunkStore
  import opened Tables
  import opened Resolution

  datatype Status = Done | Failed(errno: Errno)

  predicate NameTooLong(cs: Components) {
    |NameOf(cs)| > MAX_NAME_LEN
  }

  // ---- Operations; `cs` is the normalized path ----

  function Mkdir(s: State, cs: Components, mode: int): (State, Status) {
    if cs == [] then (s, Failed(EEXIST))
    else if NameTooLong(cs) then (s, Failed(ENAMETOOLONG))
    else
      match Lookup(s, ParentOf(cs))
      case Err(e) => (s, Failed(e))
      case Ok(parent) =>
        if !IsDir(s, parent) then (s, Failed(ENOTDIR))
        else if Slot(parent, NameOf(cs)) in s.dentries then (s, Failed(EEXIST))
        else (Create(s, Slot(parent, NameOf(cs)), DIR, NewAttr(mode), 0, 0, None), Done)
  }

  // One round of MkdirAll: the directory is there, or is made.
  function EnsureDir(s: State, cs: Components, mode: int): (State, Status) {
    match Lookup(s, cs)
    case Ok(ino) => if IsDir(s, ino) then (s, Done) else (s, Failed(ENOTDIR))
    case Err(e) => if e != ENOENT then (s, Failed(e)) else Mkdir(s, cs, mode)
  }

  // The loop of MkdirAll from component i on.
  function MkdirAllFrom(s: State, cs: Components, i: nat, mode: int): (State, Status)
    requires i <= |cs|
    decreases |cs| - i
  {
    if i == |cs| then (s, Done) else
      var (t, made) := EnsureDir(s, Renormalize(cs[..i + 1]), mode);
      if made.Failed? then (t, made) else MkdirAllFrom(t, cs, i + 1, mode)
  }

  function MkdirAll(s: State, cs: Components, mode: int): (State, Status) {
    MkdirAllFrom(s, cs, 0, mode)
  }

  function WriteFile(s: State, cs: Components, data: Bytes, mode: int): (State, Status) {
    if NameTooLong(cs) then (s, Failed(ENAMETOOLONG)) else
      var (t, made) := MkdirAll(s, ParentOf(cs), 0x1ed);
      if made.Failed? then (t, made) else
        match Lookup(t, ParentOf(cs))
        case Err(e) => (t, Failed(e))
        case Ok(parent) =>
          var k := Slot(parent, NameOf(cs));
          if k in t.dentries then
            var ino := t.dentries[k];
            if ino !in t.inodes then (t, Failed(ENOENT))
            else if IsDir(t, ino) then (t, Failed(EISDIR))
            else (PutData(t, ino, data), Done)
          else
            (PutData(Create(t, k, REG, NewAttr(mode), |data|, 0, None), t.nextIno, data), Done)
  }

  function Unlink(s: State, cs: Components): (State, Status) {
    if cs == [] then (s, Failed(EPERM)) else
      match Lookup(s, ParentOf(cs))
      case Err(e) => (s, Failed(e))
      case Ok(parent) =>
        var k := Slot(parent, NameOf(cs));
        if k !in s.dentries || s.dentries[k] !in s.inodes then (s, Failed(ENOENT))
        else if IsDir(s, s.dentries[k]) then (s, Failed(EISDIR))
        else (Drop(s, k), Done)
  }

  // deleteDentry, decrementNlink, deleteInode.
  function RemoveDir(s: State, k: Slot): State
    requires k in s.dentries
  {
    s.(dentries := s.dentries - {k}, inodes := s.inodes - {s.dentries[k]})
  }

  function Rmdir(s: State, cs: Components): (State, Status) {
    if cs == [] then (s, Failed(EPERM)) else
      match Lookup(s, ParentOf(cs))
      case Err(e) => (s, Failed(e))
      case Ok(parent) =>
        var k := Slot(parent, NameOf(cs));
        if k !in s.dentries || s.dentries[k] !in s.inodes then (s, Failed(ENOENT))
        else if !IsDir(s, s.dentries[k]) then (s, Failed(ENOTDIR))
        else if !IsEmptyDir(s, s.dentries[k]) then (s, Failed(ENOTEMPTY))
        else (RemoveDir(s, k), Done)
  }

  // What Rename does to a destination that exists.
  function ClearDestination(s: State, ino: int, to: Slot, newPath: Components): (State, Status) {
    if to !in s.dentries then (s, Done)
    else if s.dentries[to] !in s.inodes || ino !in s.inodes then (s, Failed(ENOENT))
    else if IsDir(s, s.dentries[to]) && !IsDir(s, ino) then (s, Failed(EISDIR))
    else if !IsDir(s, s.dentries[to]) && IsDir(s, ino) then (s, Failed(ENOTDIR))
    else if IsDir(s, s.dentries[to]) then Rmdir(s, newPath)
    else Unlink(s, newPath)
  }

  // Everything Rename does before its last statement, and the slots that statement moves between.
  datatype Plan = Refused(state: State, errno: Errno) | Ready(state: State, from: Slot, to: Slot)

  function PlanRename(s: State, oldPath: Components, newPath: Components): Plan {
    if oldPath == [] || newPath == [] then Refused(s, EPERM)
    else if NameTooLong(newPath) then Refused(s, ENAMETOOLONG)
    else if HasPrefix(ToPath(newPath), ToPath(oldPath) + "/") then Refused(s, EINVAL)
    else
      match Lookup(s, ParentOf(oldPath))
      case Err(e) => Refused(s, e)
      case Ok(oldParent) =>
        var from := Slot(oldParent, NameOf(oldPath));
        if from !in s.dentries then Refused(s, ENOENT) else
          var (t, made) := MkdirAll(s, ParentOf(newPath), 0x1ed);
          if made.Failed? then Refused(t, made.errno) else
            match Lookup(t, ParentOf(newPath))
            case Err(e) => Refused(t, e)
            case Ok(newParent) =>
              var to := Slot(newParent, NameOf(newPath));
              var (u, cleared) := ClearDestination(t, s.dentries[from], to, newPath);
              if cleared.Failed? then Refused(u, cleared.errno) else Ready(u, from, to)
  }

  function Rename(s: State, oldPath: Components, newPath: Components): (State, Status) {
    match PlanRename(s, oldPath, newPath)
    case Refused(t, e) => (t, Failed(e))
    case Ready(t, from, to) => (Move(t, from, to), Done)
  }

  function Link(s: State, existingPath: Components, newPath: Components): (State, Status) {
    if NameTooLong(newPath) then (s, Failed(ENAMETOOLONG)) else
      match Lookup(s, existingPath)
      case Err(e) => (s, Failed(e))
      case Ok(ino) =>
        if ino !in s.inodes then (s, Failed(ENOENT))
        else if IsDir(s, ino) then (s, Failed(EPERM))
        else
          var (t, made) := MkdirAll(s, ParentOf(newPath), 0x1ed);
          if made.Failed? then (t, made) else
            match Lookup(t, ParentOf(newPath))
            case Err(e) => (t, Failed(e))
            case Ok(parent) =>
              var k := Slot(parent, NameOf(newPath));
              if k in t.dentries then (t, Failed(EEXIST)) else (AddLink(t, k, ino), Done)
  }

  function Symlink(s: State, target: string, cs: Components): (State, Status) {
    if NameTooLong(cs) then (s, Failed(ENAMETOOLONG)) else
      var (t, made) := MkdirAll(s, ParentOf(cs), 0x1ed);
      if made.Failed? then (t, made) else
        match Lookup(t, ParentOf(cs))
        case Err(e) => (t, Failed(e))
        case Ok(parent) =>
          var k := Slot(parent, NameOf(cs));
          if k in t.dentries then (t, Failed(EEXIST))
          else (Create(t, k, LNK, Attr(0x1ff, 0, 0), |target|, 0, Some(target)), Done)
  }

  function Mknod(s: State, cs: Components, mode: int, rdev: int): (State, Status) {
    if cs == [] then (s, Failed(EPERM))
    else if NameTooLong(cs) then (s, Failed(ENAMETOOLONG))
    else if TypeBits(mode) !in {FIFO, CHR, BLK, SOCK} then (s, Failed(EINVAL))
    else
      match Lookup(s, ParentOf(cs))
      case Err(e) => (s, Failed(e))
      case Ok(parent) =>
        if !IsDir(s, parent) then (s, Failed(ENOTDIR))
        else if Slot(parent, NameOf(cs)) in s.dentries then (s, Failed(EEXIST))
        else (Create(s, Slot(parent, NameOf(cs)), TypeBits(mode), Attr(OtherBits(mode), 0, 0), 0, rdev, None), Done)
  }

  // ---- A directory just made is found by its path ----

  // Looking one component further after creating it: the scan of the parent path goes
  // the same way, and then steps to the new directory.
  lemma {:induction false} ScanGrows(s: State, cs: Components, i: nat, at: int, d: int, n: string, attr: Attr)
    requires Valid(s) && i <= |cs| && IsDir(s, d) && Slot(d, n) !in s.dentries
    ensures var t := Create(s, Slot(d, n), DIR, attr, 0, 0, None);
      && (Scan(s, cs, i, at, true) == Found(d) ==> Scan(t, cs + [n], i, at, true) == Found(s.nextIno))
      && (Scan(s, cs, i, at, true).AtLink? ==> Scan(t, cs + [n], i, at, true) == Scan(s, cs, i, at, true))
    decreases |cs| - i
  {
    var t := Create(s, Slot(d, n), DIR, attr, 0, 0, None);
    FreshIno(s);
    var longer := cs + [n];
    if i == |cs| {
      assert longer[i] == n;
      if at == d {
        assert Step(t, at, n) == Some(s.nextIno);
        assert Scan(t, longer, i + 1, s.nextIno, true) == Found(s.nextIno);
      }
    } else {
      assert longer[i] == cs[i];
      var child := Step(s, at, cs[i]);
      if child.Some? && child.value in s.inodes {
        assert Step(t, at, longer[i]) == child;
        ScanGrows(s, cs, i + 1, child.value, d, n, attr);
        if i == |cs| - 1 {
          assert Scan(s, cs, i + 1, child.value, true) == Found(child.value);
        }
      }
    }
  }

  lemma {:induction false} ResolveGrows(s: State, cs: Components, d: int, n: string, attr: Attr, budget: nat)
    requires Valid(s) && Clean([n]) && IsDir(s, d) && Slot(d, n) !in s.dentries
    requires Resolve(s, cs, true, budget) == Ok(d)
    ensures Resolve(Create(s, Slot(d, n), DIR, attr, 0, 0, None), cs + [n], true, budget) == Ok(s.nextIno)
    decreases budget
  {
    var t := Create(s, Slot(d, n), DIR, attr, 0, 0, None);
    ScanGrows(s, cs, 0, ROOT, d, n, attr);
    match Scan(s, cs, 0, ROOT, true)
    case AtLink(pos, ino) =>
      RedirectSnoc(cs, pos, s.symlinks[ino], n);
      ResolveGrows(s, Redirect(cs, pos, s.symlinks[ino]), d, n, attr, budget - 1);
    case _ =>
  }

  // ---- Directories of a path ----

  lemma MkdirValid(s: State, cs: Components, mode: int)
    requires Valid(s)
    ensures Valid(Mkdir(s, cs, mode).0) && Grows(s, Mkdir(s, cs, mode).0)
  {
    var (t, made) := Mkdir(s, cs, mode);
    if made.Done? {
      var k := Slot(Lookup(s, ParentOf(cs)).value, NameOf(cs));
      CreateValid(s, k, DIR, NewAttr(mode), 0, 0, None);
      CreateGrows(s, k, DIR, NewAttr(mode), 0, 0, None);
    }
  }

  // After Mkdir of a clean path, the path leads to the new directory.
  lemma MkdirFound(s: State, cs: Components, mode: int)
    requires Valid(s) && Clean(cs) && Mkdir(s, cs, mode).1.Done?
    ensures var t := Mkdir(s, cs, mode).0; Lookup(t, cs) == Ok(s.nextIno) && IsDir(t, s.nextIno)
  {
    ParentOfClean(cs);
    var parent, n := ParentOf(cs), NameOf(cs);
    RenormalizeIsClean(parent);
    RenormalizeIsClean(cs);
    assert n in cs;
    ResolveGrows(s, parent, Lookup(s, parent).value, n, NewAttr(mode), MAX_SYMLINK_DEPTH);
  }

  lemma EnsureDirKeeps(s: State, cs: Components, mode: int)
    requires Valid(s)
    ensures var t := EnsureDir(s, cs, mode).0; Valid(t) && Grows(s, t)
  {
    MkdirValid(s, cs, mode);
  }

  lemma EnsureDirFound(s: State, cs: Components, mode: int)
    requires Valid(s) && Clean(cs) && EnsureDir(s, cs, mode).1.Done?
    ensures var t := EnsureDir(s, cs, mode).0; Lookup(t, cs).Ok? && IsDir(t, Lookup(t, cs).value)
  {
    if Lookup(s, cs).Err? {
      MkdirFound(s, cs, mode);
    }
  }

  lemma {:induction false} MkdirAllFromKeeps(s: State, cs: Components, i: nat, mode: int)
    requires Valid(s) && i <= |cs|
    ensures var t := MkdirAllFrom(s, cs, i, mode).0; Valid(t) && Grows(s, t)
    decreases |cs| - i
  {
    if i < |cs| {
      var current := Renormalize(cs[..i + 1]);
      EnsureDirKeeps(s, current, mode);
      MkdirAllFromKeeps(EnsureDir(s, current, mode).0, cs, i + 1, mode);
    }
  }

  // MkdirAll of a clean path leaves a directory at the end of the path.
  lemma {:induction false} MkdirAllFound(s: State, cs: Components, i: nat, mode: int)
    requires Valid(s) && i <= |cs| && Clean(cs) && MkdirAllFrom(s, cs, i, mode).1.Done?
    requires i == |cs| ==> Lookup(s, cs).Ok? && IsDir(s, Lookup(s, cs).value)
    ensures var t := MkdirAllFrom(s, cs, i, mode).0; Lookup(t, cs).Ok? && IsDir(t, Lookup(t, cs).value)
    decreases |cs| - i
  {
    if i < |cs| {
      var current := Renormalize(cs[..i + 1]);
      RenormalizeTake(cs, i + 1);
      var t := EnsureDir(s, current, mode).0;
      EnsureDirKeeps(s, current, mode);
      EnsureDirFound(s, current, mode);
      assert MkdirAllFrom(s, cs, i, mode) == MkdirAllFrom(t, cs, i + 1, mode);
      MkdirAllFound(t, cs, i + 1, mode);
    }
  }

  lemma RenormalizeTake(cs: Components, i: nat)
    requires Clean(cs) && i <= |cs|
    ensures Renormalize(cs[..i]) == cs[..i] && Clean(cs[..i]) && (i == |cs| ==> cs[..i] == cs)
  {
    assert forall c :: c in cs[..i] ==> c in cs;
    RenormalizeIsClean(cs[..i]);
  }

  // The parent directory every creating call works in.
  lemma ParentMade(s: State, cs: Components)
    requires Valid(s) && Proper(cs)
    ensures var (t, made) := MkdirAll(s, ParentOf(cs), 0x1ed);
      && Valid(t) && Grows(s, t)
      && (made.Done? ==> Lookup(t, ParentOf(cs)).Ok? && IsDir(t, Lookup(t, ParentOf(cs)).value))
  {
    var parent := ParentOf(cs);
    MkdirAllFromKeeps(s, parent, 0, 0x1ed);
    if cs != [] {
      RenormalizeIsClean(cs[..|cs| - 1]);
    }
    RenormalizeIsClean(parent);
    if parent == [] {
      assert Lookup(s, parent) == Ok(ROOT);
    }
    if MkdirAll(s, parent, 0x1ed).1.Done? {
      MkdirAllFound(s, parent, 0, 0x1ed);
    }
  }

  // ---- Each operation keeps the invariant ----

  lemma WriteFileValid(s: State, cs: Components, data: Bytes, mode: int)
    requires Valid(s) && Proper(cs)
    ensures Valid(WriteFile(s, cs, data, mode).0)
  {
    ParentMade(s, cs);
    var (t, made) := MkdirAll(s, ParentOf(cs), 0x1ed);
    if !NameTooLong(cs) && made.Done? {
      var k := Slot(Lookup(t, ParentOf(cs)).value, NameOf(cs));
      if k !in t.dentries {
        CreateValid(t, k, REG, NewAttr(mode), |data|, 0, None);
        PutDataValid(Create(t, k, REG, NewAttr(mode), |data|, 0, None), t.nextIno, data);
      } else if t.dentries[k] in t.inodes && !IsDir(t, t.dentries[k]) {
        PutDataValid(t, t.dentries[k], data);
      }
    }
  }

  lemma UnlinkValid(s: State, cs: Components)
    requires Valid(s)
    ensures Valid(Unlink(s, cs).0)
  {
    if Unlink(s, cs).1.Done? {
      DropValid(s, Slot(Lookup(s, ParentOf(cs)).value, NameOf(cs)));
    }
  }

  // A directory has one link and no rows of its own, so removing it is dropping its dentry.
  lemma RemoveDirIsDrop(s: State, k: Slot)
    requires Valid(s) && k in s.dentries && IsDir(s, s.dentries[k])
    ensures RemoveDir(s, k) == Drop(s, k)
  {
    var ino := s.dentries[k];
    assert SlotValid(s, k) && InodeValid(s, ino);
    var t := Drop(s, k);
    assert ino !in s.chunks && ino !in s.symlinks;
    assert s.chunks - {ino} == s.chunks && s.symlinks - {ino} == s.symlinks;
    assert t.inodes == s.inodes - {ino};
  }

  lemma RmdirValid(s: State, cs: Components)
    requires Valid(s)
    ensures Valid(Rmdir(s, cs).0)
  {
    if Rmdir(s, cs).1.Done? {
      var k := Slot(Lookup(s, ParentOf(cs)).value, NameOf(cs));
      RemoveDirIsDrop(s, k);
      DropValid(s, k);
    }
  }

  // How far Rename got: nothing done, the new parent made, or also the destination cleared.
  datatype Stage = Untouched | ParentReady | Cleared(ino: int, to: Slot)

  function StageOf(s: State, oldPath: Components, newPath: Components): Stage {
    if oldPath == [] || newPath == [] || NameTooLong(newPath) || HasPrefix(ToPath(newPath), ToPath(oldPath) + "/")
    then Untouched else
      var oldParent := Lookup(s, ParentOf(oldPath));
      if oldParent.Err? || Slot(oldParent.value, NameOf(oldPath)) !in s.dentries then Untouched else
        var (t, made) := MkdirAll(s, ParentOf(newPath), 0x1ed);
        if made.Failed? || Lookup(t, ParentOf(newPath)).Err? then ParentReady
        else Cleared(s.dentries[Slot(oldParent.value, NameOf(oldPath))],
                     Slot(Lookup(t, ParentOf(newPath)).value, NameOf(newPath)))
  }

  lemma PlanStage(s: State, oldPath: Components, newPath: Components)
    ensures var p, t := PlanRename(s, oldPath, newPath), MkdirAll(s, ParentOf(newPath), 0x1ed).0;
      match StageOf(s, oldPath, newPath)
      case Untouched => p.Refused? && p.state == s
      case ParentReady => p.Refused? && p.state == t
      case Cleared(ino, to) =>
        && newPath != [] && MkdirAll(s, ParentOf(newPath), 0x1ed).1.Done?
        && Lookup(t, ParentOf(newPath)) == Ok(to.parent) && to.name == NameOf(newPath)
        && p.state == ClearDestination(t, ino, to, newPath).0
        && (p.Ready? <==> ClearDestination(t, ino, to, newPath).1.Done?)
        && (p.Ready? ==>
              && p.to == to && p.from.name == NameOf(oldPath) && Lookup(s, ParentOf(oldPath)) == Ok(p.from.parent)
              && p.from in s.dentries && ino == s.dentries[p.from])
  {
  }

  // When Rename is about to move the dentry, the tables are valid and the new slot is free
  // in a live directory.
  lemma PlanValid(s: State, oldPath: Components, newPath: Components)
    requires Valid(s) && Proper(oldPath) && Proper(newPath)
    ensures var p := PlanRename(s, oldPath, newPath);
      && Valid(p.state)
      && (p.Ready? ==> IsDir(p.state, p.to.parent) && p.to !in p.state.dentries)
  {
    ParentMade(s, newPath);
    PlanStage(s, oldPath, newPath);
    var stage := StageOf(s, oldPath, newPath);
    if stage.Cleared? {
      ClearDestinationValid(MkdirAll(s, ParentOf(newPath), 0x1ed).0, stage.ino, stage.to, newPath);
    }
  }

  lemma ClearDestinationValid(t: State, ino: int, to: Slot, newPath: Components)
    requires Valid(t) && newPath != [] && Lookup(t, ParentOf(newPath)) == Ok(to.parent) && to.name == NameOf(newPath)
    requires IsDir(t, to.parent)
    ensures var (u, cleared) := ClearDestination(t, ino, to, newPath);
      && Valid(u)
      && (cleared.Done? ==> to !in u.dentries && IsDir(u, to.parent))
  {
    UnlinkValid(t, newPath);
    RmdirValid(t, newPath);
    if ClearDestination(t, ino, to, newPath).1.Done? {
      ClearedDestination(t, ino, to, newPath);
    }
  }

  lemma ClearedDestination(t: State, ino: int, to: Slot, newPath: Components)
    requires Valid(t) && newPath != [] && Lookup(t, ParentOf(newPath)) == Ok(to.parent) && to.name == NameOf(newPath)
    requires IsDir(t, to.parent) && ClearDestination(t, ino, to, newPath).1.Done?
    ensures var u := ClearDestination(t, ino, to, newPath).0;
      && to !in u.dentries && IsDir(u, to.parent)
      && (to in t.dentries ==> IsDir(t, t.dentries[to]) ==> IsEmptyDir(t, t.dentries[to]))
      && u == (if to in t.dentries then Drop(t, to) else t)
  {
    if to in t.dentries {
      assert SlotValid(t, to);
      DropCounts(t, to);
      if IsDir(t, t.dentries[to]) {
        RemoveDirIsDrop(t, to);
        assert to.parent != t.dentries[to];
      }
    }
  }

  lemma RenameValid(s: State, oldPath: Components, newPath: Components)
    requires Valid(s) && Proper(oldPath) && Proper(newPath)
    ensures Valid(Rename(s, oldPath, newPath).0)
  {
    PlanValid(s, oldPath, newPath);
    var p := PlanRename(s, oldPath, newPath);
    if p.Ready? {
      MoveValid(p.state, p.from, p.to);
    }
  }

  lemma LinkValid(s: State, existingPath: Components, newPath: Components)
    requires Valid(s) && Proper(newPath)
    ensures Valid(Link(s, existingPath, newPath).0)
  {
    ParentMade(s, newPath);
    if Link(s, existingPath, newPath).1.Done? {
      var ino := Lookup(s, existingPath).value;
      var t := MkdirAll(s, ParentOf(newPath), 0x1ed).0;
      AddLinkValid(t, Slot(Lookup(t, ParentOf(newPath)).value, NameOf(newPath)), ino);
    }
  }

  lemma SymlinkValid(s: State, target: string, cs: Components)
    requires Valid(s) && Proper(cs)
    ensures Valid(Symlink(s, target, cs).0)
  {
    ParentMade(s, cs);
    if Symlink(s, target, cs).1.Done? {
      var t := MkdirAll(s, ParentOf(cs), 0x1ed).0;
      CreateValid(t, Slot(Lookup(t, ParentOf(cs)).value, NameOf(cs)), LNK, Attr(0x1ff, 0, 0), |target|, 0, Some(target));
    }
  }

  lemma MknodValid(s: State, cs: Components, mode: int, rdev: int)
    requires Valid(s)
    ensures Valid(Mknod(s, cs, mode, rdev).0)
  {
    if Mknod(s, cs, mode, rdev).1.Done? {
      CreateValid(s, Slot(Lookup(s, ParentOf(cs)).value, NameOf(cs)), TypeBits(mode), Attr(OtherBits(mode), 0, 0), 0, rdev, None);
    }
  }

  // ---- Runs ----

  // A call with its path arguments as the caller wrote them.
  datatype Op =
    | OpMkdir(path: string, mode: int)
    | OpMkdirAll(path: string, mode: int)
    | OpWriteFile(path: string, data: Bytes, mode: int)
    | OpUnlink(path: string)
    | OpRmdir(path: string)
    | OpRename(oldPath: string, newPath: string)
    | OpLink(existing: string, newPath: string)
    | OpSymlink(target: string, path: string)
    | OpMknod(path: string, mode: int, rdev: int)

  function Call(s: State, op: Op): (State, Status) {
    match op
    case OpMkdir(p, mode) => Mkdir(s, Normalize(p), mode)
    case OpMkdirAll(p, mode) => MkdirAll(s, Normalize(p), mode)
    case OpWriteFile(p, data, mode) => WriteFile(s, Normalize(p), data, mode)
    case OpUnlink(p) => Unlink(s, Normalize(p))
    case OpRmdir(p) => Rmdir(s, Normalize(p))
    case OpRename(p, q) => Rename(s, Normalize(p), Normalize(q))
    case OpLink(p, q) => Link(s, Normalize(p), Normalize(q))
    case OpSymlink(target, p) => Symlink(s, target, Normalize(p))
    case OpMknod(p, mode, rdev) => Mknod(s, Normalize(p), mode, rdev)
  }

  lemma CallValid(s: State, op: Op)
    requires Valid(s)
    ensures Valid(Call(s, op).0)
  {
    match op
    case OpMkdir(p, mode) => MkdirValid(s, Normalize(p), mode);
    case OpMkdirAll(p, mode) => MkdirAllFromKeeps(s, Normalize(p), 0, mode);
    case OpWriteFile(p, data, mode) => NormalizeProper(p); WriteFileValid(s, Normalize(p), data, mode);
    case OpUnlink(p) => UnlinkValid(s, Normalize(p));
    case OpRmdir(p) => RmdirValid(s, Normalize(p));
    case OpRename(p, q) => NormalizeProper(p); NormalizeProper(q); RenameValid(s, Normalize(p), Normalize(q));
    case OpLink(p, q) => NormalizeProper(q); LinkValid(s, Normalize(p), Normalize(q));
    case OpSymlink(target, p) => NormalizeProper(p); SymlinkValid(s, target, Normalize(p));
    case OpMknod(p, mode, rdev) => MknodValid(s, Normalize(p), mode, rdev);
  }

  function Run(s: State, ops: seq<Op>): State
    decreases |ops|
  {
    if ops == [] then s else Run(Call(s, ops[0]).0, ops[1..])
  }

  // In every run from a fresh database, whatever the calls and whether or not they succeed:
  // link counts equal the dentries, directories have one dentry, dentries hang below live
  // directories, and no data or symlink row outlives its inode.
  lemma {:induction false} RunValid(s: State, ops: seq<Op>)
    requires Valid(s)
    ensures Valid(Run(s, ops))
    decreases |ops|
  {
    if ops != [] {
      CallValid(s, ops[0]);
      RunValid(Call(s, ops[0]).0, ops[1..]);
    }
  }

  lemma FreshDatabaseRunValid(chunkSize: Positive, mode: int, ops: seq<Op>)
    ensures Valid(Run(Initial(chunkSize, mode), ops))
  {
    InitialValid(chunkSize, mode);
    RunValid(Initial(chunkSize, mode), ops);
  }
}
