// Rename keeps the namespace a tree, and what it does to every path.
module RenameTree {
  import opened Common
  import opened Paths
  import opened ChunkStore
  import opened Tables
  import opened Resolution
  import opened Namespace

  // ---- Reachability under the row updates ----

  ghost predicate KeepsSlots(s: State, t: State) {
    forall k :: k in s.dentries ==> k in t.dentries && t.dentries[k] == s.dentries[k]
  }

  lemma {:induction false} WalkKept(s: State, t: State, from: int, cs: Components)
    requires KeepsSlots(s, t) && Walk(s, from, cs).Some?
    ensures Walk(t, from, cs) == Walk(s, from, cs)
    decreases |cs|
  {
    if cs != [] {
      WalkKept(s, t, Step(s, from, cs[0]).value, cs[1..]);
    }
  }

  // New slots over a tree give a tree when every new inode hangs on one of them.
  lemma SlotsAddedTree(s: State, t: State)
    requires Tree(s) && KeepsSlots(s, t)
    requires forall ino :: ino in t.inodes && ino !in s.inodes ==>
      exists k :: k in t.dentries && t.dentries[k] == ino && k.parent in s.inodes
    ensures Tree(t)
  {
    forall ino | ino in t.inodes
      ensures Below(t, ROOT, ino)
    {
      if ino in s.inodes {
        BelowKept(s, t, ino);
      } else {
        var k :| k in t.dentries && t.dentries[k] == ino && k.parent in s.inodes;
        BelowKept(s, t, k.parent);
        BelowStep(t, ROOT, k);
      }
    }
  }

  lemma BelowKept(s: State, t: State, ino: int)
    requires KeepsSlots(s, t) && Below(s, ROOT, ino)
    ensures Below(t, ROOT, ino)
  {
    var cs :| Walk(s, ROOT, cs) == Some(ino);
    WalkKept(s, t, ROOT, cs);
  }

  lemma CreateTree(s: State, k: Slot, fileType: int, attr: Attr, size: int, rdev: int, target: Option<string>)
    requires Valid(s) && Tree(s) && k.parent in s.inodes && k !in s.dentries
    ensures Tree(Create(s, k, fileType, attr, size, rdev, target))
  {
    var t := Create(s, k, fileType, attr, size, rdev, target);
    assert k in t.dentries && t.dentries[k] == s.nextIno;
    SlotsAddedTree(s, t);
  }

  lemma AddLinkTree(s: State, k: Slot, ino: int)
    requires Tree(s) && k !in s.dentries && ino in s.inodes
    ensures Tree(AddLink(s, k, ino))
  {
    SlotsAddedTree(s, AddLink(s, k, ino));
  }

  // A walk either avoids slot k or arrives at what k names on the way.
  lemma {:induction false} AvoidsOrPasses(s: State, t: State, k: Slot, from: int, cs: Components)
    requires k in s.dentries
    requires forall j :: j in s.dentries && j != k ==> j in t.dentries && t.dentries[j] == s.dentries[j]
    requires Walk(s, from, cs).Some?
    ensures Walk(t, from, cs) == Walk(s, from, cs) || Below(s, s.dentries[k], Walk(s, from, cs).value)
    decreases |cs|
  {
    if cs != [] {
      var pre, n := cs[..|cs| - 1], cs[|cs| - 1];
      assert cs == pre + [n];
      WalkSnoc(s, from, pre, n);
      WalkSnoc(t, from, pre, n);
      AvoidsOrPasses(s, t, k, from, pre);
      var last := Slot(Walk(s, from, pre).value, n);
      if last == k {
        BelowSelf(s, s.dentries[k]);
      } else if Below(s, s.dentries[k], last.parent) {
        BelowStep(s, s.dentries[k], last);
      }
    }
  }

  // Below a file or an empty directory there is only itself.
  lemma OnlyItselfBelow(s: State, top: int, ino: int)
    requires IsEmptyDir(s, top) && Below(s, top, ino)
    ensures ino == top
  {
    var cs :| Walk(s, top, cs) == Some(ino);
  }

  lemma FileIsEmpty(s: State, ino: int)
    requires Valid(s) && !IsDir(s, ino)
    ensures IsEmptyDir(s, ino)
  {
    forall k | k in s.dentries
      ensures k.parent != ino
    {
      assert SlotValid(s, k);
    }
  }

  lemma DropTree(s: State, k: Slot)
    requires Valid(s) && Tree(s) && k in s.dentries && IsEmptyDir(s, s.dentries[k])
    ensures Tree(Drop(s, k))
  {
    var t, gone := Drop(s, k), s.dentries[k];
    DropCounts(s, k);
    forall ino | ino in t.inodes
      ensures Below(t, ROOT, ino)
    {
      if ino == gone {
        var other :| other in Links(t, gone);
        assert SlotValid(s, other);
        DropKeepsPath(s, k, other.parent);
        BelowStep(t, ROOT, other);
      } else {
        DropKeepsPath(s, k, ino);
      }
    }
  }

  lemma DropKeepsPath(s: State, k: Slot, ino: int)
    requires Valid(s) && Tree(s) && k in s.dentries && IsEmptyDir(s, s.dentries[k])
    requires ino in s.inodes && ino != s.dentries[k]
    ensures Below(Drop(s, k), ROOT, ino)
  {
    var cs :| Walk(s, ROOT, cs) == Some(ino);
    AvoidsOrPasses(s, Drop(s, k), k, ROOT, cs);
    if Below(s, s.dentries[k], ino) {
      OnlyItselfBelow(s, s.dentries[k], ino);
    }
  }

  // ---- Moving a dentry ----

  lemma {:induction false} MoveKeepsPath(s: State, from: Slot, to: Slot, cs: Components)
    requires from in s.dentries && to !in s.dentries && Below(Move(s, from, to), ROOT, to.parent)
    requires Walk(s, ROOT, cs).Some?
    ensures Below(Move(s, from, to), ROOT, Walk(s, ROOT, cs).value)
    decreases |cs|
  {
    var t := Move(s, from, to);
    if cs == [] {
      BelowSelf(t, ROOT);
    } else {
      var pre, n := cs[..|cs| - 1], cs[|cs| - 1];
      assert cs == pre + [n];
      WalkSnoc(s, ROOT, pre, n);
      var last := Slot(Walk(s, ROOT, pre).value, n);
      if last == from {
        BelowStep(t, ROOT, to);
      } else {
        MoveKeepsPath(s, from, to, pre);
        BelowStep(t, ROOT, last);
      }
    }
  }

  lemma ParentStays(s: State, from: Slot, to: Slot)
    requires Tree(s) && from in s.dentries && to !in s.dentries && to.parent in s.inodes
    requires !Below(s, s.dentries[from], to.parent)
    ensures Below(Move(s, from, to), ROOT, to.parent)
  {
    var path :| Walk(s, ROOT, path) == Some(to.parent);
    AvoidsOrPasses(s, Move(s, from, to), from, ROOT, path);
  }

  // In the moved state, nothing outside the moved subtree leads into it when its new
  // parent is inside.
  lemma {:induction false} CutOff(s: State, from: Slot, to: Slot, cs: Components)
    requires Valid(s) && from in s.dentries && to !in s.dentries && IsDir(s, s.dentries[from])
    requires Below(s, s.dentries[from], to.parent) && IsDir(s, to.parent)
    requires var end := Walk(Move(s, from, to), ROOT, cs); end.Some? && IsDir(s, end.value)
    ensures !Below(s, s.dentries[from], Walk(Move(s, from, to), ROOT, cs).value)
    decreases |cs|
  {
    var t, top := Move(s, from, to), s.dentries[from];
    var end := Walk(t, ROOT, cs).value;
    assert SlotValid(s, from);
    if Below(s, top, end) {
      var post :| Walk(s, top, post) == Some(end);
      if cs == [] {
        WalkLive(s, top, post);
      } else {
        var pre, n := cs[..|cs| - 1], cs[|cs| - 1];
        assert cs == pre + [n];
        WalkSnoc(t, ROOT, pre, n);
        var last := Slot(Walk(t, ROOT, pre).value, n);
        if last == to {
          CutOff(s, from, to, pre);
        } else {
          assert SlotValid(s, last);
          if post != [] {
            var mid, m := post[..|post| - 1], post[|post| - 1];
            assert post == mid + [m];
            WalkSnoc(s, top, mid, m);
            DirHasOneSlot(s, last, Slot(Walk(s, top, mid).value, m));
            CutOff(s, from, to, pre);
          } else {
            DirHasOneSlot(s, last, from);
          }
        }
      }
      assert false;
    }
  }

  // The move keeps every inode reachable exactly when the new parent is not inside what moves.
  lemma MoveTreeExactly(s: State, from: Slot, to: Slot)
    requires Valid(s) && Tree(s) && from in s.dentries && to !in s.dentries && IsDir(s, to.parent)
    ensures Tree(Move(s, from, to)) <==> !Below(s, s.dentries[from], to.parent)
  {
    var t, top := Move(s, from, to), s.dentries[from];
    assert SlotValid(s, from);
    if !Below(s, top, to.parent) {
      ParentStays(s, from, to);
      forall ino | ino in t.inodes
        ensures Below(t, ROOT, ino)
      {
        var cs :| Walk(s, ROOT, cs) == Some(ino);
        MoveKeepsPath(s, from, to, cs);
      }
    } else {
      if !IsDir(s, top) {
        FileIsEmpty(s, top);
        OnlyItselfBelow(s, top, to.parent);
        assert false;
      }
      BelowSelf(s, top);
      forall cs | Walk(t, ROOT, cs) == Some(top)
        ensures false
      {
        CutOff(s, from, to, cs);
      }
      assert !Below(t, ROOT, top);
    }
  }

  // ---- Every operation keeps the tree; Rename exactly when it does not move a
  //      directory into itself ----

  lemma PutDataTree(s: State, ino: int, data: Bytes)
    requires Tree(s) && ino in s.inodes
    ensures Tree(PutData(s, ino, data))
  {
    SlotsAddedTree(s, PutData(s, ino, data));
  }

  lemma MkdirTree(s: State, cs: Components, mode: int)
    requires Valid(s) && Tree(s)
    ensures Tree(Mkdir(s, cs, mode).0)
  {
    if Mkdir(s, cs, mode).1.Done? {
      CreateTree(s, Slot(Lookup(s, ParentOf(cs)).value, NameOf(cs)), DIR, NewAttr(mode), 0, 0, None);
    }
  }

  lemma {:induction false} MkdirAllFromTree(s: State, cs: Components, i: nat, mode: int)
    requires Valid(s) && Tree(s) && i <= |cs|
    ensures Tree(MkdirAllFrom(s, cs, i, mode).0)
    decreases |cs| - i
  {
    if i < |cs| {
      var current := Renormalize(cs[..i + 1]);
      EnsureDirKeeps(s, current, mode);
      MkdirTree(s, current, mode);
      MkdirAllFromTree(EnsureDir(s, current, mode).0, cs, i + 1, mode);
    }
  }

  lemma WriteFileTree(s: State, cs: Components, data: Bytes, mode: int)
    requires Valid(s) && Tree(s) && Proper(cs)
    ensures Tree(WriteFile(s, cs, data, mode).0)
  {
    ParentMade(s, cs);
    MkdirAllFromTree(s, ParentOf(cs), 0, 0x1ed);
    var t := MkdirAll(s, ParentOf(cs), 0x1ed).0;
    if WriteFile(s, cs, data, mode).1.Done? {
      var k := Slot(Lookup(t, ParentOf(cs)).value, NameOf(cs));
      if k in t.dentries {
        PutDataTree(t, t.dentries[k], data);
      } else {
        CreateTree(t, k, REG, NewAttr(mode), |data|, 0, None);
        PutDataTree(Create(t, k, REG, NewAttr(mode), |data|, 0, None), t.nextIno, data);
      }
    }
  }

  lemma UnlinkTree(s: State, cs: Components)
    requires Valid(s) && Tree(s)
    ensures Tree(Unlink(s, cs).0)
  {
    if Unlink(s, cs).1.Done? {
      var k := Slot(Lookup(s, ParentOf(cs)).value, NameOf(cs));
      FileIsEmpty(s, s.dentries[k]);
      DropTree(s, k);
    }
  }

  lemma RmdirTree(s: State, cs: Components)
    requires Valid(s) && Tree(s)
    ensures Tree(Rmdir(s, cs).0)
  {
    if Rmdir(s, cs).1.Done? {
      var k := Slot(Lookup(s, ParentOf(cs)).value, NameOf(cs));
      RemoveDirIsDrop(s, k);
      DropTree(s, k);
    }
  }

  lemma LinkTree(s: State, existingPath: Components, newPath: Components)
    requires Valid(s) && Tree(s) && Proper(newPath)
    ensures Tree(Link(s, existingPath, newPath).0)
  {
    ParentMade(s, newPath);
    MkdirAllFromTree(s, ParentOf(newPath), 0, 0x1ed);
    var t := MkdirAll(s, ParentOf(newPath), 0x1ed).0;
    var (v, r) := Link(s, existingPath, newPath);
    if r.Done? {
      var k, ino := Slot(Lookup(t, ParentOf(newPath)).value, NameOf(newPath)), Lookup(s, existingPath).value;
      assert k !in t.dentries && ino in t.inodes && v == AddLink(t, k, ino);
      AddLinkTree(t, k, ino);
    } else {
      assert v == s || v == t;
    }
  }

  lemma SymlinkTree(s: State, target: string, cs: Components)
    requires Valid(s) && Tree(s) && Proper(cs)
    ensures Tree(Symlink(s, target, cs).0)
  {
    ParentMade(s, cs);
    MkdirAllFromTree(s, ParentOf(cs), 0, 0x1ed);
    if Symlink(s, target, cs).1.Done? {
      var t := MkdirAll(s, ParentOf(cs), 0x1ed).0;
      CreateTree(t, Slot(Lookup(t, ParentOf(cs)).value, NameOf(cs)), LNK, Attr(0x1ff, 0, 0), |target|, 0, Some(target));
    }
  }

  lemma MknodTree(s: State, cs: Components, mode: int, rdev: int)
    requires Valid(s) && Tree(s)
    ensures Tree(Mknod(s, cs, mode, rdev).0)
  {
    if Mknod(s, cs, mode, rdev).1.Done? {
      CreateTree(s, Slot(Lookup(s, ParentOf(cs)).value, NameOf(cs)), TypeBits(mode), Attr(OtherBits(mode), 0, 0), 0, rdev, None);
    }
  }

  lemma PlanTree(s: State, oldPath: Components, newPath: Components)
    requires Valid(s) && Tree(s) && Proper(oldPath) && Proper(newPath)
    ensures Tree(PlanRename(s, oldPath, newPath).state)
  {
    ParentMade(s, newPath);
    MkdirAllFromTree(s, ParentOf(newPath), 0, 0x1ed);
    PlanStage(s, oldPath, newPath);
    var stage := StageOf(s, oldPath, newPath);
    if stage.Cleared? {
      ClearDestinationTree(MkdirAll(s, ParentOf(newPath), 0x1ed).0, stage.ino, stage.to, newPath);
    }
  }

  lemma ClearDestinationTree(t: State, ino: int, to: Slot, newPath: Components)
    requires Valid(t) && Tree(t)
    ensures Tree(ClearDestination(t, ino, to, newPath).0)
  {
    RmdirTree(t, newPath);
    UnlinkTree(t, newPath);
  }
}

// What Rename does to every path, when the parent paths cross no symlink.
module RenamePaths {
  import opened Common
  import opened Paths
  import opened Tables
  import opened Resolution
  import opened Namespace
  import opened RenameTree

  // t is s plus directories that s does not have, all on the way to `path`.
  ghost predicate GrownTo(s: State, t: State, path: Components) {
    && Grows(s, t)
    && forall cs :: Walk(t, ROOT, cs).Some? ==> GrownAt(s, t, path, cs)
  }

  predicate GrownAt(s: State, t: State, path: Components, cs: Components)
    requires Walk(t, ROOT, cs).Some?
  {
    var ino := Walk(t, ROOT, cs).value;
    Walk(s, ROOT, cs) == Some(ino) || (Walk(s, ROOT, cs).None? && cs <= path && IsDir(t, ino) && ino !in s.inodes)
  }

  lemma GrownKeeps(s: State, t: State, cs: Components)
    requires Grows(s, t) && Walk(s, ROOT, cs).Some?
    ensures Walk(t, ROOT, cs) == Walk(s, ROOT, cs)
  {
    WalkKept(s, t, ROOT, cs);
  }

  // Creating one inode adds one path.
  lemma {:induction false} CreatedPath(s: State, pre: Components, k: Slot, fileType: int, attr: Attr, size: int,
      target: Option<string>, cs: Components)
    requires Valid(s) && Walk(s, ROOT, pre) == Some(k.parent) && IsDir(s, k.parent) && k !in s.dentries
    ensures var t := Create(s, k, fileType, attr, size, 0, target);
      Walk(t, ROOT, cs) == if cs == pre + [k.name] then Some(s.nextIno) else Walk(s, ROOT, cs)
    decreases |cs|
  {
    var t := Create(s, k, fileType, attr, size, 0, target);
    if cs != [] {
      var c, m := cs[..|cs| - 1], cs[|cs| - 1];
      assert cs == c + [m];
      WalkSnoc(s, ROOT, c, m);
      WalkSnoc(t, ROOT, c, m);
      CreatedPath(s, pre, k, fileType, attr, size, target, c);
      if c == pre + [k.name] {
        WalkSnoc(s, ROOT, pre, k.name);
        FreshIno(s);
        NoSlotBelow(s, s.nextIno, m);
      } else if Walk(s, ROOT, c).Some? && Slot(Walk(s, ROOT, c).value, m) == k {
        DirPathUnique(s, c, pre);
      }
    }
  }

  lemma NoSlotBelow(s: State, ino: int, name: string)
    requires Valid(s) && ino !in s.inodes
    ensures Slot(ino, name) !in s.dentries
  {
    forall k | k in s.dentries
      ensures k.parent != ino
    {
      assert SlotValid(s, k);
    }
  }

  lemma CreateGrown(s: State, pre: Components, d: int, n: string, attr: Attr)
    requires Valid(s) && Walk(s, ROOT, pre) == Some(d) && IsDir(s, d) && Slot(d, n) !in s.dentries
    ensures GrownTo(s, Create(s, Slot(d, n), DIR, attr, 0, 0, None), pre + [n])
  {
    var t := Create(s, Slot(d, n), DIR, attr, 0, 0, None);
    CreateGrows(s, Slot(d, n), DIR, attr, 0, 0, None);
    FreshIno(s);
    WalkSnoc(s, ROOT, pre, n);
    forall cs | Walk(t, ROOT, cs).Some?
      ensures GrownAt(s, t, pre + [n], cs)
    {
      CreatedPath(s, pre, Slot(d, n), DIR, attr, 0, None, cs);
    }
  }

  lemma GrownTransitive(s: State, t: State, u: State, path: Components)
    requires GrownTo(s, t, path) && GrownTo(t, u, path)
    ensures GrownTo(s, u, path)
  {
    forall cs | Walk(u, ROOT, cs).Some?
      ensures GrownAt(s, u, path, cs)
    {
      assert GrownAt(t, u, path, cs);
      if Walk(t, ROOT, cs).Some? {
        assert GrownAt(s, t, path, cs);
      } else if Walk(s, ROOT, cs).Some? {
        GrownKeeps(s, t, cs);
      }
    }
  }

  lemma GrownLonger(s: State, t: State, path: Components, longer: Components)
    requires GrownTo(s, t, path) && path <= longer
    ensures GrownTo(s, t, longer)
  {
    forall cs | Walk(t, ROOT, cs).Some?
      ensures GrownAt(s, t, longer, cs)
    {
      assert GrownAt(s, t, path, cs);
    }
  }

  // Growing by directories puts no symlink on the way.
  lemma GrownHasNoLink(s: State, t: State, path: Components, cs: Components)
    requires Valid(s) && GrownTo(s, t, path) && !HasLink(s, cs, true)
    ensures !HasLink(t, cs, true)
  {
    forall i | LinkAt(t, cs, true, i)
      ensures LinkAt(s, cs, true, i)
    {
      assert GrownAt(s, t, path, cs[..i + 1]);
      if Walk(s, ROOT, cs[..i + 1]).Some? {
        WalkLive(s, ROOT, cs[..i + 1]);
      }
    }
  }

  lemma NoLinkPrefix(s: State, cs: Components, pre: Components)
    requires !HasLink(s, cs, true) && pre <= cs
    ensures !HasLink(s, pre, true)
  {
    forall i | LinkAt(s, pre, true, i)
      ensures LinkAt(s, cs, true, i)
    {
      assert pre[..i + 1] == cs[..i + 1];
    }
  }

  // A clean path without symlinks is looked up by walking it.
  lemma LookupPlain(s: State, cs: Components)
    requires Valid(s) && Clean(cs) && !HasLink(s, cs, true)
    ensures Lookup(s, cs).Ok? ==> Walk(s, ROOT, cs) == Some(Lookup(s, cs).value)
    ensures Walk(s, ROOT, cs).Some? ==> Lookup(s, cs).Ok?
  {
    RenormalizeIsClean(cs);
    ResolvePlain(s, cs, true, MAX_SYMLINK_DEPTH);
  }

  lemma EnsureDirGrown(s: State, cs: Components, mode: int)
    requires Valid(s) && Clean(cs) && !HasLink(s, cs, true)
    ensures GrownTo(s, EnsureDir(s, cs, mode).0, cs)
  {
    if Lookup(s, cs) == Err(ENOENT) && Mkdir(s, cs, mode).1.Done? {
      ParentOfClean(cs);
      var pre, n := ParentOf(cs), NameOf(cs);
      NoLinkPrefix(s, cs, pre);
      LookupPlain(s, pre);
      CreateGrown(s, pre, Lookup(s, pre).value, n, NewAttr(mode));
    }
  }

  // MkdirAll along a path without symlinks adds directories on that path and nothing else.
  lemma {:induction false} MkdirAllGrown(s: State, path: Components, i: nat, mode: int)
    requires Valid(s) && Clean(path) && !HasLink(s, path, true) && i <= |path|
    ensures GrownTo(s, MkdirAllFrom(s, path, i, mode).0, path)
    decreases |path| - i
  {
    if i < |path| {
      var current := path[..i + 1];
      RenormalizeIsClean(current);
      NoLinkPrefix(s, path, current);
      EnsureDirKeeps(s, current, mode);
      EnsureDirGrown(s, current, mode);
      var t := EnsureDir(s, current, mode).0;
      GrownLonger(s, t, current, path);
      GrownHasNoLink(s, t, path, path);
      MkdirAllGrown(t, path, i + 1, mode);
      GrownTransitive(s, t, MkdirAllFrom(t, path, i + 1, mode).0, path);
    }
  }

  // ---- Walks after clearing the destination and after the move ----

  // The last step of a path goes through slot k only if the path is the path of k.
  lemma StepThrough(s: State, parent: Components, k: Slot, c: Components, m: string)
    requires Valid(s) && Walk(s, ROOT, parent) == Some(k.parent) && IsDir(s, k.parent)
    requires Walk(s, ROOT, c) == Some(k.parent) && m == k.name
    ensures c == parent
  {
    DirPathUnique(s, c, parent);
  }

  lemma {:induction false} ClearedWalk(t: State, parent: Components, to: Slot, cs: Components)
    requires Valid(t) && Walk(t, ROOT, parent) == Some(to.parent) && IsDir(t, to.parent)
    ensures var u := if to in t.dentries then Drop(t, to) else t;
      Walk(u, ROOT, cs) == if parent + [to.name] <= cs then None else Walk(t, ROOT, cs)
    decreases |cs|
  {
    var u, path := if to in t.dentries then Drop(t, to) else t, parent + [to.name];
    if cs != [] {
      var c, m := cs[..|cs| - 1], cs[|cs| - 1];
      assert cs == c + [m];
      WalkSnoc(t, ROOT, c, m);
      WalkSnoc(u, ROOT, c, m);
      ClearedWalk(t, parent, to, c);
      if path <= cs {
        PrefixSnoc(parent, to.name, c, m);
      } else if Walk(t, ROOT, c) == Some(to.parent) && m == to.name {
        StepThrough(t, parent, to, c, m);
      }
    }
  }

  lemma PrefixSnoc(p: Components, n: string, c: Components, m: string)
    requires p + [n] <= c + [m]
    ensures p + [n] <= c || (p == c && n == m)
  {
    var path, cs := p + [n], c + [m];
    if |path| <= |c| {
      assert path == cs[..|path|] == c[..|path|];
    } else {
      assert path == cs;
      assert p == path[..|p|] == cs[..|c|] == c;
      assert path[|p|] == n && cs[|c|] == m;
    }
  }

  // After the move: the subtree has gone from the old path to the new one.
  function MovedWalk(u: State, oldPath: Components, newPath: Components, cs: Components): Option<int> {
    if newPath <= cs then Walk(u, ROOT, oldPath + cs[|newPath|..])
    else if oldPath <= cs then None
    else Walk(u, ROOT, cs)
  }

  lemma {:induction false} MoveWalk(u: State, oldParent: Components, from: Slot, newParent: Components, to: Slot, cs: Components)
    requires Valid(u) && from in u.dentries && to !in u.dentries
    requires Walk(u, ROOT, oldParent) == Some(from.parent)
    requires Walk(u, ROOT, newParent) == Some(to.parent) && IsDir(u, to.parent)
    requires !(oldParent + [from.name] <= newParent)
    ensures Walk(Move(u, from, to), ROOT, cs) ==
      MovedWalk(u, oldParent + [from.name], newParent + [to.name], cs)
    decreases |cs|
  {
    if cs != [] {
      var c, m := cs[..|cs| - 1], cs[|cs| - 1];
      assert cs == c + [m];
      WalkSnoc(Move(u, from, to), ROOT, c, m);
      MoveWalk(u, oldParent, from, newParent, to, c);
      MoveWalkSnoc(u, oldParent, from, newParent, to, c, m);
    }
  }

  // One component further: the step after the moved walk is the moved walk's next step.
  lemma MoveWalkSnoc(u: State, oldParent: Components, from: Slot, newParent: Components, to: Slot, c: Components, m: string)
    requires Valid(u) && from in u.dentries && to !in u.dentries
    requires Walk(u, ROOT, oldParent) == Some(from.parent)
    requires Walk(u, ROOT, newParent) == Some(to.parent) && IsDir(u, to.parent)
    requires !(oldParent + [from.name] <= newParent)
    ensures var oldPath, newPath := oldParent + [from.name], newParent + [to.name];
      var at := MovedWalk(u, oldPath, newPath, c);
      MovedWalk(u, oldPath, newPath, c + [m]) == if at.None? then None else Step(Move(u, from, to), at.value, m)
  {
    var oldPath, newPath, cs := oldParent + [from.name], newParent + [to.name], c + [m];
    assert SlotValid(u, from);
    DestinationNotAbove(u, oldParent, from, newParent, to);
    if newPath <= c {
      var c' := oldPath + c[|newPath|..];
      assert oldPath + cs[|newPath|..] == c' + [m];
      assert oldPath <= c';
      WalkSnoc(u, ROOT, c', m);
      MovedStep(u, oldParent, from, newParent, to, c', m);
    } else if newPath <= cs {
      PrefixSnoc(newParent, to.name, c, m);
      WalkSnoc(u, ROOT, oldParent, from.name);
      assert oldPath + cs[|newPath|..] == oldPath;
    } else if oldPath <= cs {
      PrefixSnoc(oldParent, from.name, c, m);
    } else {
      WalkSnoc(u, ROOT, c, m);
      MovedStep(u, oldParent, from, newParent, to, c, m);
    }
  }

  // Off the two moved slots, a step goes the same way before and after.
  lemma MovedStep(u: State, oldParent: Components, from: Slot, newParent: Components, to: Slot, c: Components, m: string)
    requires Valid(u) && from in u.dentries && IsDir(u, from.parent) && IsDir(u, to.parent)
    requires Walk(u, ROOT, oldParent) == Some(from.parent)
    requires Walk(u, ROOT, newParent) == Some(to.parent)
    requires c != oldParent || m != from.name
    requires c != newParent || m != to.name
    ensures Walk(u, ROOT, c).Some? ==>
      Step(Move(u, from, to), Walk(u, ROOT, c).value, m) == Step(u, Walk(u, ROOT, c).value, m)
  {
    if Walk(u, ROOT, c).Some? {
      var k := Slot(Walk(u, ROOT, c).value, m);
      if k == from {
        StepThrough(u, oldParent, from, c, m);
      } else if k == to {
        StepThrough(u, newParent, to, c, m);
      }
    }
  }

  // ---- Rename as a whole ----

  ghost predicate PlainRename(s: State, oldPath: Components, newPath: Components) {
    && Valid(s) && Clean(oldPath) && Clean(newPath) && oldPath != newPath
    && !HasLink(s, ParentOf(oldPath), true) && !HasLink(s, ParentOf(newPath), true)
  }

  // What holds right before the dentry moves: t has the new parent, u the destination
  // cleared as well, and the entry goes from one slot to the other.
  ghost predicate Poised(s: State, oldPath: Components, newPath: Components, t: State, u: State, from: Slot, to: Slot) {
    && oldPath != [] && newPath != [] && Clean(oldPath) && Clean(newPath)
    && oldPath != newPath && !(oldPath <= newPath)
    && Valid(t) && Valid(u) && GrownTo(s, t, ParentOf(newPath))
    && from.name == NameOf(oldPath) && Walk(t, ROOT, ParentOf(oldPath)) == Some(from.parent) && from in t.dentries
    && to.name == NameOf(newPath) && Walk(t, ROOT, ParentOf(newPath)) == Some(to.parent)
    && IsDir(t, to.parent) && IsDir(u, to.parent)
    && u == (if to in t.dentries then Drop(t, to) else t)
    && to !in u.dentries && (to in t.dentries ==> IsEmptyDir(t, t.dentries[to]))
  }

  // Once the new parent is made, both parents are where their plain walks lead.
  lemma ParentsWalk(s: State, oldPath: Components, newPath: Components)
    requires PlainRename(s, oldPath, newPath) && newPath != [] && MkdirAll(s, ParentOf(newPath), 0x1ed).1.Done?
    ensures var t := MkdirAll(s, ParentOf(newPath), 0x1ed).0;
      && Valid(t) && GrownTo(s, t, ParentOf(newPath))
      && (Lookup(s, ParentOf(oldPath)).Ok? ==> Walk(t, ROOT, ParentOf(oldPath)) == Some(Lookup(s, ParentOf(oldPath)).value))
      && (Lookup(t, ParentOf(newPath)).Ok? ==> Walk(t, ROOT, ParentOf(newPath)) == Some(Lookup(t, ParentOf(newPath)).value))
  {
    var t := MkdirAll(s, ParentOf(newPath), 0x1ed).0;
    ParentMade(s, newPath);
    if oldPath != [] { ParentOfClean(oldPath); }
    ParentOfClean(newPath);
    MkdirAllGrown(s, ParentOf(newPath), 0, 0x1ed);
    GrownHasNoLink(s, t, ParentOf(newPath), ParentOf(newPath));
    LookupPlain(s, ParentOf(oldPath));
    if Lookup(s, ParentOf(oldPath)).Ok? { GrownKeeps(s, t, ParentOf(oldPath)); }
    LookupPlain(t, ParentOf(newPath));
  }

  lemma ReadyToMove(s: State, oldPath: Components, newPath: Components) returns (t: State, u: State, from: Slot, to: Slot)
    requires PlainRename(s, oldPath, newPath) && Rename(s, oldPath, newPath).1.Done?
    ensures PlanRename(s, oldPath, newPath) == Ready(u, from, to)
    ensures Poised(s, oldPath, newPath, t, u, from, to)
  {
    var p := PlanRename(s, oldPath, newPath);
    PlanStage(s, oldPath, newPath);
    PlanValid(s, oldPath, newPath);
    PrefixTestIsSubtree(oldPath, newPath);
    t, u, from, to := MkdirAll(s, ParentOf(newPath), 0x1ed).0, p.state, p.from, p.to;
    ParentsWalk(s, oldPath, newPath);
    ClearedDestination(t, s.dentries[from], to, newPath);
    if to in t.dentries && !IsDir(t, t.dentries[to]) {
      FileIsEmpty(t, t.dentries[to]);
    }
  }

  lemma PoisedFacts(s: State, oldPath: Components, newPath: Components, t: State, u: State, from: Slot, to: Slot)
    requires Poised(s, oldPath, newPath, t, u, from, to)
    ensures oldPath == ParentOf(oldPath) + [from.name] && newPath == ParentOf(newPath) + [to.name]
    ensures from != to && from in u.dentries
    ensures Walk(u, ROOT, ParentOf(oldPath)) == Some(from.parent)
    ensures Walk(u, ROOT, ParentOf(newPath)) == Some(to.parent)
    ensures !(newPath <= oldPath)
  {
    ParentOfClean(oldPath);
    ParentOfClean(newPath);
    PathsGiveSlots(t, ParentOf(oldPath), from, ParentOf(newPath), to);
    ClearedWalk(t, ParentOf(newPath), to, ParentOf(newPath));
    ClearedWalk(t, ParentOf(newPath), to, ParentOf(oldPath));
    DestinationNotAbove(t, ParentOf(oldPath), from, ParentOf(newPath), to);
  }

  lemma PathsGiveSlots(t: State, oldParent: Components, from: Slot, newParent: Components, to: Slot)
    requires Valid(t) && Walk(t, ROOT, oldParent) == Some(from.parent)
    requires Walk(t, ROOT, newParent) == Some(to.parent) && IsDir(t, to.parent)
    requires oldParent != newParent || from.name != to.name
    ensures from != to
  {
    if from == to {
      DirPathUnique(t, oldParent, newParent);
      assert false;
    }
  }

  // A destination that was cleared had nothing in it, so the source was not below it.
  lemma DestinationNotAbove(t: State, oldParent: Components, from: Slot, newParent: Components, to: Slot)
    requires Walk(t, ROOT, newParent) == Some(to.parent) && Walk(t, ROOT, oldParent) == Some(from.parent)
    requires from in t.dentries && (to in t.dentries ==> IsEmptyDir(t, t.dentries[to]))
    ensures !(newParent + [to.name] <= oldParent)
  {
    var newPath := newParent + [to.name];
    if newPath <= oldParent {
      var rest := oldParent[|newPath|..];
      assert newPath + rest == oldParent;
      WalkSnoc(t, ROOT, newParent, to.name);
      WalkAppend(t, ROOT, newPath, rest);
      assert false;
    }
  }

  // Before the dentry moves, paths other than the destination's are as at the start, but
  // for new directories towards the new parent.
  lemma PoisedWalk(s: State, oldPath: Components, newPath: Components, t: State, u: State, from: Slot, to: Slot, cs: Components)
    requires Poised(s, oldPath, newPath, t, u, from, to) && !(newPath <= cs)
    ensures
      if Walk(s, ROOT, cs).Some? then Walk(u, ROOT, cs) == Walk(s, ROOT, cs)
      else Walk(u, ROOT, cs).Some? ==>
        cs <= ParentOf(newPath) && Walk(u, ROOT, cs).value !in s.inodes && IsDir(u, Walk(u, ROOT, cs).value)
  {
    ParentOfClean(newPath);
    ClearedWalk(t, ParentOf(newPath), to, cs);
    if Walk(s, ROOT, cs).Some? {
      GrownKeeps(s, t, cs);
    } else if Walk(t, ROOT, cs).Some? {
      assert GrownAt(s, t, ParentOf(newPath), cs);
      WalkLive(u, ROOT, cs);
      if to in t.dentries {
        DropCounts(t, to);
      }
    }
  }

  // What a successful rename does to every path: the subtree at the old path is found at the
  // new path, the old path is gone, every other path that existed leads where it did, and
  // the only other paths are new directories on the way to the new parent.
  lemma RenameMovesSubtree(s: State, oldPath: Components, newPath: Components, cs: Components)
    requires PlainRename(s, oldPath, newPath) && Rename(s, oldPath, newPath).1.Done?
    ensures var v := Rename(s, oldPath, newPath).0;
      if newPath <= cs then Walk(v, ROOT, cs) == Walk(s, ROOT, oldPath + cs[|newPath|..])
      else if oldPath <= cs then Walk(v, ROOT, cs).None?
      else if Walk(s, ROOT, cs).Some? then Walk(v, ROOT, cs) == Walk(s, ROOT, cs)
      else Walk(v, ROOT, cs).Some? ==>
        cs <= ParentOf(newPath) && Walk(v, ROOT, cs).value !in s.inodes && IsDir(v, Walk(v, ROOT, cs).value)
  {
    var t, u, from, to := ReadyToMove(s, oldPath, newPath);
    PoisedFacts(s, oldPath, newPath, t, u, from, to);
    MoveWalk(u, ParentOf(oldPath), from, ParentOf(newPath), to, cs);
    PoisedWalk(s, oldPath, newPath, t, u, from, to, if newPath <= cs then oldPath + cs[|newPath|..] else cs);
  }

  lemma NotIntoItself(u: State, oldPath: Components, from: Slot, newParent: Components, to: Slot)
    requires Valid(u) && from in u.dentries && oldPath != [] && from.name == NameOf(oldPath)
    requires Walk(u, ROOT, oldPath[..|oldPath| - 1]) == Some(from.parent)
    requires Walk(u, ROOT, newParent) == Some(to.parent) && IsDir(u, to.parent)
    requires !(oldPath <= newParent)
    ensures !Below(u, u.dentries[from], to.parent)
  {
    if Below(u, u.dentries[from], to.parent) {
      var post :| Walk(u, u.dentries[from], post) == Some(to.parent);
      assert oldPath == oldPath[..|oldPath| - 1] + [from.name];
      WalkSnoc(u, ROOT, oldPath[..|oldPath| - 1], from.name);
      WalkAppend(u, ROOT, oldPath, post);
      DirPathUnique(u, oldPath + post, newParent);
      assert false;
    }
  }

  // MkdirAll of a directory that is there changes nothing.
  lemma {:induction false} MkdirAllNothing(s: State, path: Components, i: nat, mode: int)
    requires Valid(s) && Clean(path) && !HasLink(s, path, true) && i <= |path|
    requires Walk(s, ROOT, path).Some? && IsDir(s, Walk(s, ROOT, path).value)
    ensures MkdirAllFrom(s, path, i, mode) == (s, Done)
    decreases |path| - i
  {
    if i < |path| {
      var current, rest := path[..i + 1], path[i + 1..];
      RenormalizeIsClean(current);
      NoLinkPrefix(s, path, current);
      LookupPlain(s, current);
      assert current + rest == path;
      WalkAppend(s, ROOT, current, rest);
      WalkLive(s, ROOT, current);
      if rest != [] {
        WalkLive(s, Walk(s, ROOT, current).value, rest);
      } else {
        assert current == path;
      }
      MkdirAllNothing(s, path, i + 1, mode);
    }
  }
}
