// The parent directory a call makes, told from the tables before the call.
module MadeParents {
  import opened Common
  import opened Paths
  import opened Tables
  import opened Resolution
  import opened Namespace
  import opened RenameTree

  // ---- One component further ----

  lemma {:induction false} ScanSnoc(s: State, cs: Components, i: nat, at: int, n: string)
    requires i <= |cs|
    ensures Scan(s, cs + [n], i, at, true) == (
      match Scan(s, cs, i, at, true)
      case Found(d) => if i < |cs| && !IsDir(s, d) then NotDirectory else Scan(s, cs + [n], |cs|, d, true)
      case r => r)
    decreases |cs| - i
  {
    if i < |cs| {
      assert (cs + [n])[i] == cs[i];
      var child := Step(s, at, cs[i]);
      if child.Some? && child.value in s.inodes {
        if i + 1 == |cs| {
          assert Scan(s, cs, i + 1, child.value, true) == Found(child.value);
        }
        ScanSnoc(s, cs, i + 1, child.value, n);
      }
    }
  }

  // What resolving one component more comes to: the same error, or the step from what was found.
  lemma {:induction false} ResolveSnoc(s: State, cs: Components, n: string, budget: nat)
    requires Valid(s) && Clean([n])
    ensures var r, longer := Resolve(s, cs, true, budget), Resolve(s, cs + [n], true, budget);
      && (r.Err? ==> longer == r)
      && (r.Ok? && !IsDir(s, r.value) ==> longer == Err(ENOTDIR))
      && (r.Ok? && IsDir(s, r.value) && Step(s, r.value, n).None? ==> longer == Err(ENOENT))
    decreases budget
  {
    ScanSnoc(s, cs, 0, ROOT, n);
    match Scan(s, cs, 0, ROOT, true)
    case AtLink(pos, ino) =>
      if budget > 0 && ino in s.symlinks {
        RedirectSnoc(cs, pos, s.symlinks[ino], n);
        ResolveSnoc(s, Redirect(cs, pos, s.symlinks[ino]), n, budget - 1);
      }
    case Found(d) =>
      assert cs == [] ==> d == ROOT && InodeValid(s, ROOT);
      assert (cs + [n])[|cs|] == n;
    case _ =>
  }

  lemma LookupSnoc(s: State, cs: Components, n: string)
    requires Valid(s) && Clean(cs + [n])
    ensures var r, longer := Lookup(s, cs), Lookup(s, cs + [n]);
      && (r.Err? ==> longer == r)
      && (r.Ok? && !IsDir(s, r.value) ==> longer == Err(ENOTDIR))
      && (r.Ok? && IsDir(s, r.value) && Step(s, r.value, n).None? ==> longer == Err(ENOENT))
  {
    assert forall c :: c in cs ==> c in cs + [n];
    assert n in cs + [n];
    RenormalizeIsClean(cs);
    RenormalizeIsClean(cs + [n]);
    ResolveSnoc(s, cs, n, MAX_SYMLINK_DEPTH);
  }

  // ---- How far a path is found ----

  // The number of leading components of the longest prefix that resolves.
  function FoundDepth(s: State, path: Components): (j: nat)
    ensures j <= |path|
    decreases |path|
  {
    if path == [] || Lookup(s, path).Ok? then |path| else FoundDepth(s, path[..|path| - 1])
  }

  // What that prefix resolves to.
  function Anchor(s: State, path: Components): int {
    var r := Lookup(s, path[..FoundDepth(s, path)]);
    if r.Ok? then r.value else ROOT
  }

  lemma CleanTake(path: Components, i: nat)
    requires Clean(path) && i <= |path|
    ensures Clean(path[..i])
  {
    assert forall c :: c in path[..i] ==> c in path;
  }

  // Once a prefix does not resolve, no longer one does.
  lemma {:induction false} ErrBeyond(s: State, path: Components, i: nat, m: nat)
    requires Valid(s) && Clean(path) && i <= m <= |path| && Lookup(s, path[..i]).Err?
    ensures Lookup(s, path[..m]) == Lookup(s, path[..i])
    decreases m
  {
    if i < m {
      ErrBeyond(s, path, i, m - 1);
      assert path[..m] == path[..m - 1] + [path[m - 1]];
      CleanTake(path, m);
      LookupSnoc(s, path[..m - 1], path[m - 1]);
    }
  }

  lemma RootFound(s: State)
    ensures Lookup(s, []) == Ok(ROOT)
  {
  }

  lemma {:induction false} FoundMeans(s: State, path: Components)
    ensures var j := FoundDepth(s, path);
      && Lookup(s, path[..j]) == Ok(Anchor(s, path))
      && (j < |path| ==> Lookup(s, path[..j + 1]).Err?)
    decreases |path|
  {
    RootFound(s);
    if path == [] || Lookup(s, path).Ok? {
      assert path[..|path|] == path;
    } else {
      var front := path[..|path| - 1];
      FoundMeans(s, front);
      var j := FoundDepth(s, front);
      assert path[..j] == front[..j];
      if j < |front| {
        assert path[..j + 1] == front[..j + 1];
      } else {
        assert path[..j + 1] == path;
      }
    }
  }

  // The depth is where resolving stops.
  lemma FoundIs(s: State, path: Components, j: nat)
    requires Valid(s) && Clean(path) && j <= |path| && Lookup(s, path[..j]).Ok?
    requires j < |path| ==> Lookup(s, path[..j + 1]).Err?
    ensures FoundDepth(s, path) == j && Anchor(s, path) == Lookup(s, path[..j]).value
  {
    FoundMeans(s, path);
    var i := FoundDepth(s, path);
    if i < j {
      ErrBeyond(s, path, i + 1, j);
    } else if j < i {
      ErrBeyond(s, path, j + 1, i);
    }
  }

  // ---- MkdirAll ----

  // The rest of the path can be made: the prefix that resolves is a directory, its next name is
  // free, and no name to be made is too long.
  predicate CanMake(s: State, path: Components) {
    var j := FoundDepth(s, path);
    && IsDir(s, Anchor(s, path))
    && (j < |path| ==> Slot(Anchor(s, path), path[j]) !in s.dentries)
    && forall k :: j <= k < |path| ==> |path[k]| <= MAX_NAME_LEN
  }

  // A walk to an inode that was there before does not go through a new empty one.
  lemma {:induction false} WalkBeforeCreate(s: State, k: Slot, attr: Attr, top: int, cs: Components)
    requires Valid(s) && IsDir(s, k.parent) && k !in s.dentries && top in s.inodes
    requires var end := Walk(Create(s, k, DIR, attr, 0, 0, None), top, cs); end.Some? && end.value != s.nextIno
    ensures Walk(s, top, cs) == Walk(Create(s, k, DIR, attr, 0, 0, None), top, cs)
    decreases |cs|
  {
    var t := Create(s, k, DIR, attr, 0, 0, None);
    if cs != [] {
      var pre, m := cs[..|cs| - 1], cs[|cs| - 1];
      assert cs == pre + [m];
      WalkSnoc(t, top, pre, m);
      WalkSnoc(s, top, pre, m);
      NothingInFresh(s, k, attr, m);
      WalkBeforeCreate(s, k, attr, top, pre);
    }
  }

  lemma NothingInFresh(s: State, k: Slot, attr: Attr, m: string)
    requires Valid(s) && IsDir(s, k.parent)
    ensures Step(Create(s, k, DIR, attr, 0, 0, None), s.nextIno, m).None?
    ensures s.nextIno !in s.inodes
  {
    FreshIno(s);
    forall j | j in s.dentries
      ensures j.parent != s.nextIno
    {
      assert SlotValid(s, j);
    }
  }

  // A new directory is below exactly what its parent is below.
  lemma BelowCreated(s: State, k: Slot, attr: Attr, top: int)
    requires Valid(s) && IsDir(s, k.parent) && k !in s.dentries && top in s.inodes
    ensures Below(Create(s, k, DIR, attr, 0, 0, None), top, s.nextIno) <==> Below(s, top, k.parent)
  {
    var t := Create(s, k, DIR, attr, 0, 0, None);
    FreshIno(s);
    if Below(t, top, s.nextIno) {
      var cs :| Walk(t, top, cs) == Some(s.nextIno);
      var pre, m := cs[..|cs| - 1], cs[|cs| - 1];
      assert cs == pre + [m];
      WalkSnoc(t, top, pre, m);
      forall j | j in s.dentries
        ensures s.dentries[j] != s.nextIno
      {
        assert SlotValid(s, j);
      }
      WalkBeforeCreate(s, k, attr, top, pre);
    }
    if Below(s, top, k.parent) {
      var cs :| Walk(s, top, cs) == Some(k.parent);
      WalkKept(s, t, top, cs);
      BelowStep(t, top, k);
    }
  }

  // The directory at the end of a made path is below exactly what the anchor was below, and is the
  // anchor itself when nothing was made; otherwise it is new and empty.
  ghost predicate MadeAt(s: State, t: State, path: Components) {
    var end := Lookup(t, path);
    && end.Ok? && IsDir(t, end.value)
    && (forall top :: top in s.inodes ==> (Below(t, top, end.value) <==> Below(s, top, Anchor(s, path))))
    && (FoundDepth(s, path) == |path| ==> t == s && end.value == Anchor(s, path))
    && (FoundDepth(s, path) < |path| ==> end.value !in s.inodes && IsEmptyDir(t, end.value))
  }

  // A component that resolves to something else than a directory stops MkdirAll for good.
  lemma FileStops(s: State, path: Components, i: nat)
    requires Valid(s) && Clean(path) && i < |path|
    requires Lookup(s, path[..i + 1]).Ok? && !IsDir(s, Lookup(s, path[..i + 1]).value)
    ensures FoundDepth(s, path) == i + 1 && Anchor(s, path) == Lookup(s, path[..i + 1]).value && !CanMake(s, path)
  {
    var x := path[..i + 1];
    if i + 1 < |path| {
      CleanTake(path, i + 2);
      assert path[..i + 2] == x + [path[i + 1]];
      LookupSnoc(s, x, path[i + 1]);
    }
    FoundIs(s, path, i + 1);
  }

  // The first component that does not resolve is made exactly when its name is short and free.
  lemma MakeExactly(s: State, path: Components, i: nat, mode: int)
    requires Valid(s) && Clean(path) && i < |path|
    requires Lookup(s, path[..i]).Ok? && IsDir(s, Lookup(s, path[..i]).value) && Lookup(s, path[..i + 1]).Err?
    ensures FoundDepth(s, path) == i && Anchor(s, path) == Lookup(s, path[..i]).value
    ensures var x, k := path[..i + 1], Slot(Anchor(s, path), path[i]);
      EnsureDir(s, x, mode) ==
        if k !in s.dentries && |path[i]| <= MAX_NAME_LEN then (Create(s, k, DIR, NewAttr(mode), 0, 0, None), Done)
        else (s, Failed(if Lookup(s, x).errno != ENOENT then Lookup(s, x).errno
                        else if |path[i]| > MAX_NAME_LEN then ENAMETOOLONG else EEXIST))
  {
    FoundIs(s, path, i);
    var x := path[..i + 1];
    CleanTake(path, i + 1);
    ParentOfClean(x);
    assert x[..i] == path[..i] && x == path[..i] + [path[i]];
    LookupSnoc(s, path[..i], path[i]);
  }

  lemma FreshIsEmpty(s: State, k: Slot, attr: Attr)
    requires Valid(s) && IsDir(s, k.parent)
    ensures var t := Create(s, k, DIR, attr, 0, 0, None);
      IsDir(t, s.nextIno) && IsEmptyDir(t, s.nextIno) && s.nextIno !in s.inodes && s.inodes.Keys <= t.inodes.Keys
  {
    NothingInFresh(s, k, attr, "");
    var t := Create(s, k, DIR, attr, 0, 0, None);
    forall j | j in t.dentries
      ensures j.parent != s.nextIno
    {
      NothingInFresh(s, k, attr, j.name);
      assert j == Slot(j.parent, j.name);
    }
  }

  // A path found as far as an empty directory.
  lemma EmptyIsAnchor(t: State, path: Components, i: nat, d: int)
    requires Valid(t) && Clean(path) && i <= |path| && Lookup(t, path[..i]) == Ok(d) && IsDir(t, d) && IsEmptyDir(t, d)
    ensures FoundDepth(t, path) == i && Anchor(t, path) == d
    ensures i < |path| ==> Slot(d, path[i]) !in t.dentries
  {
    if i < |path| {
      CleanTake(path, i + 1);
      assert path[..i + 1] == path[..i] + [path[i]];
      LookupSnoc(t, path[..i], path[i]);
    }
    FoundIs(t, path, i);
  }

  lemma MakeOne(s: State, path: Components, i: nat, mode: int)
    requires Valid(s) && Clean(path) && i < |path|
    requires Lookup(s, path[..i]).Ok? && IsDir(s, Lookup(s, path[..i]).value) && Lookup(s, path[..i + 1]).Err?
    requires EnsureDir(s, path[..i + 1], mode).1.Done?
    ensures FoundDepth(s, path) == i && IsDir(s, Anchor(s, path))
    ensures var t, k := EnsureDir(s, path[..i + 1], mode).0, Slot(Anchor(s, path), path[i]);
      && k !in s.dentries && |path[i]| <= MAX_NAME_LEN && t == Create(s, k, DIR, NewAttr(mode), 0, 0, None)
      && Valid(t) && Lookup(t, path[..i + 1]) == Ok(s.nextIno)
  {
    MakeExactly(s, path, i, mode);
    CleanTake(path, i + 1);
    MkdirValid(s, path[..i + 1], mode);
    MkdirFound(s, path[..i + 1], mode);
  }

  // After the first new directory, what is left to make goes into new empty ones.
  lemma MadeOneFurther(s: State, t: State, path: Components, attr: Attr)
    requires Valid(s) && Valid(t) && Clean(path) && FoundDepth(s, path) < |path| && IsDir(s, Anchor(s, path))
    requires var i := FoundDepth(s, path); var k := Slot(Anchor(s, path), path[i]);
      && k !in s.dentries && |path[i]| <= MAX_NAME_LEN && t == Create(s, k, DIR, attr, 0, 0, None)
      && Lookup(t, path[..i + 1]) == Ok(s.nextIno)
    ensures IsDir(t, s.nextIno) && IsEmptyDir(t, s.nextIno)
    ensures FoundDepth(t, path) == FoundDepth(s, path) + 1 && Anchor(t, path) == s.nextIno
    ensures CanMake(t, path) <==> CanMake(s, path)
    ensures s.inodes.Keys <= t.inodes.Keys && s.nextIno !in s.inodes
    ensures forall top :: top in s.inodes ==> (Below(t, top, s.nextIno) <==> Below(s, top, Anchor(s, path)))
  {
    var i := FoundDepth(s, path);
    var k := Slot(Anchor(s, path), path[i]);
    FreshIsEmpty(s, k, attr);
    EmptyIsAnchor(t, path, i + 1, s.nextIno);
    SameRest(s, t, path, i);
    AllBelowCreated(s, k, attr);
  }

  lemma SameRest(s: State, t: State, path: Components, i: nat)
    requires i < |path| && FoundDepth(s, path) == i && FoundDepth(t, path) == i + 1
    requires IsDir(s, Anchor(s, path)) && Slot(Anchor(s, path), path[i]) !in s.dentries && |path[i]| <= MAX_NAME_LEN
    requires IsDir(t, Anchor(t, path)) && (i + 1 < |path| ==> Slot(Anchor(t, path), path[i + 1]) !in t.dentries)
    ensures CanMake(t, path) <==> CanMake(s, path)
  {
  }

  lemma AllBelowCreated(s: State, k: Slot, attr: Attr)
    requires Valid(s) && IsDir(s, k.parent) && k !in s.dentries
    ensures forall top :: top in s.inodes ==>
      (Below(Create(s, k, DIR, attr, 0, 0, None), top, s.nextIno) <==> Below(s, top, k.parent))
  {
    forall top | top in s.inodes
      ensures Below(Create(s, k, DIR, attr, 0, 0, None), top, s.nextIno) <==> Below(s, top, k.parent)
    {
      BelowCreated(s, k, attr, top);
    }
  }

  lemma MadeVia(s: State, s1: State, t: State, path: Components)
    requires MadeAt(s1, t, path) && FoundDepth(s, path) < FoundDepth(s1, path) && s.inodes.Keys <= s1.inodes.Keys
    requires Anchor(s1, path) !in s.inodes && IsEmptyDir(s1, Anchor(s1, path))
    requires forall top :: top in s.inodes ==> (Below(s1, top, Anchor(s1, path)) <==> Below(s, top, Anchor(s, path)))
    ensures MadeAt(s, t, path)
  {
  }

  // MkdirAll succeeds exactly when the rest of the path can be made.
  lemma {:induction false} MakeFrom(s: State, path: Components, i: nat, mode: int)
    requires Valid(s) && Clean(path) && i <= |path|
    requires Lookup(s, path[..i]).Ok? && IsDir(s, Lookup(s, path[..i]).value)
    ensures var (t, r) := MkdirAllFrom(s, path, i, mode);
      (r.Done? <==> CanMake(s, path)) && (r.Done? ==> MadeAt(s, t, path))
    decreases |path| - i
  {
    if i == |path| {
      assert path[..i] == path;
      NothingToMake(s, path);
      assert MkdirAllFrom(s, path, i, mode) == (s, Done);
    } else {
      var x := path[..i + 1];
      CleanTake(path, i + 1);
      RenormalizeIsClean(x);
      var (s1, r) := EnsureDir(s, x, mode);
      assert r.Done? ==> MkdirAllFrom(s, path, i, mode) == MkdirAllFrom(s1, path, i + 1, mode);
      if Lookup(s, x).Err? {
        MakeExactly(s, path, i, mode);
        if r.Done? {
          MakeOne(s, path, i, mode);
          MadeOneFurther(s, s1, path, NewAttr(mode));
          MakeFrom(s1, path, i + 1, mode);
          if CanMake(s1, path) {
            MadeVia(s, s1, MkdirAllFrom(s1, path, i + 1, mode).0, path);
          }
        }
      } else if IsDir(s, Lookup(s, x).value) {
        MakeFrom(s, path, i + 1, mode);
      } else {
        FileStops(s, path, i);
      }
    }
  }

  lemma NothingToMake(s: State, path: Components)
    requires Valid(s) && Clean(path) && Lookup(s, path).Ok? && IsDir(s, Lookup(s, path).value)
    ensures CanMake(s, path) && MadeAt(s, s, path)
  {
    assert path[..|path|] == path;
    FoundIs(s, path, |path|);
  }

  lemma ParentMadeExactly(s: State, path: Components, mode: int)
    requires Valid(s) && Clean(path)
    ensures MkdirAll(s, path, mode).1.Done? <==> CanMake(s, path)
    ensures MkdirAll(s, path, mode).1.Done? ==> MadeAt(s, MkdirAll(s, path, mode).0, path)
  {
    RootFound(s);
    assert path[..0] == [];
    assert InodeValid(s, ROOT);
    MakeFrom(s, path, 0, mode);
  }
}

// When Rename succeeds, whether the entry arrives, and whether the namespace stays a tree, each told
// from the tables before the call and for all paths, symlinks included.
module RenameExact {
  import opened Common
  import opened Paths
  import ChunkStore
  import opened Tables
  import opened Resolution
  import opened Namespace
  import opened RenameTree
  import opened RenamePaths
  import opened MadeParents

  // ---- Success ----

  predicate HasEntry(s: State, path: Components) {
    path != [] && Lookup(s, ParentOf(path)).Ok? && EntrySlot(s, path) in s.dentries
  }

  // The dentry a path names, its last component not followed.
  function EntrySlot(s: State, path: Components): Slot {
    var parent := Lookup(s, ParentOf(path));
    Slot(if parent.Ok? then parent.value else ROOT, NameOf(path))
  }

  // Nothing is in the way, or what is there can be replaced by ino.
  predicate DestinationFree(s: State, ino: int, to: Slot) {
    to in s.dentries ==>
      && (IsDir(s, s.dentries[to]) <==> IsDir(s, ino))
      && (IsDir(s, ino) ==> IsEmptyDir(s, s.dentries[to]))
  }

  predicate RenameGoes(s: State, oldPath: Components, newPath: Components) {
    var parent := ParentOf(newPath);
    && newPath != [] && !NameTooLong(newPath) && !StrictPrefix(oldPath, newPath)
    && HasEntry(s, oldPath) && CanMake(s, parent)
    && (FoundDepth(s, parent) == |parent| ==>
          DestinationFree(s, s.dentries[EntrySlot(s, oldPath)], Slot(Anchor(s, parent), NameOf(newPath))))
  }

  lemma ParentClean(cs: Components)
    requires Proper(cs)
    ensures Clean(ParentOf(cs))
  {
    if cs != [] {
      assert forall c :: c in cs[..|cs| - 1] ==> c in cs;
      RenormalizeIsClean(cs[..|cs| - 1]);
    }
  }

  lemma ClearExactly(t: State, ino: int, to: Slot, newPath: Components)
    requires Valid(t) && newPath != [] && Lookup(t, ParentOf(newPath)) == Ok(to.parent) && to.name == NameOf(newPath)
    requires ino in t.inodes
    ensures ClearDestination(t, ino, to, newPath).1.Done? <==> DestinationFree(t, ino, to)
  {
    if to in t.dentries {
      assert SlotValid(t, to);
    }
  }

  // Rename succeeds exactly when the old entry is there, the new path is not below it, the new
  // parent is there or can be made, and the destination is free or can be replaced.
  lemma RenameSucceedsExactly(s: State, oldPath: Components, newPath: Components)
    requires Valid(s) && Proper(oldPath) && Proper(newPath)
    ensures Rename(s, oldPath, newPath).1.Done? <==> RenameGoes(s, oldPath, newPath)
  {
    var parent := ParentOf(newPath);
    if oldPath != [] {
      PrefixTestIsSubtree(oldPath, newPath);
    }
    PlanStage(s, oldPath, newPath);
    ParentClean(newPath);
    ParentMadeExactly(s, parent, 0x1ed);
    if HasEntry(s, oldPath) && newPath != [] && CanMake(s, parent) {
      var ino, t := s.dentries[EntrySlot(s, oldPath)], MkdirAll(s, parent, 0x1ed).0;
      var to := Slot(Lookup(t, parent).value, NameOf(newPath));
      assert SlotValid(s, EntrySlot(s, oldPath));
      ParentMade(s, newPath);
      ClearExactly(t, ino, to, newPath);
      if FoundDepth(s, parent) < |parent| {
        assert to !in t.dentries;
      }
    }
  }

  // ---- The entry ----

  // Both paths name one dentry, however they are spelled.
  predicate SameEntry(s: State, oldPath: Components, newPath: Components) {
    Lookup(s, ParentOf(newPath)) == Lookup(s, ParentOf(oldPath)) && NameOf(newPath) == NameOf(oldPath)
  }

  // The tables on the way of a successful rename.
  ghost predicate Underway(s: State, oldPath: Components, newPath: Components, t: State, u: State, from: Slot, to: Slot) {
    && Valid(t) && Valid(u) && Grows(s, t) && MadeAt(s, t, ParentOf(newPath))
    && HasEntry(s, oldPath) && from == EntrySlot(s, oldPath)
    && Lookup(t, ParentOf(newPath)) == Ok(to.parent) && to.name == NameOf(newPath)
    && (to in t.dentries ==> IsEmptyDir(t, t.dentries[to]))
    && u == (if to in t.dentries then Drop(t, to) else t)
    && to !in u.dentries && IsDir(u, to.parent)
  }

  lemma RenameParts(s: State, oldPath: Components, newPath: Components) returns (t: State, u: State, from: Slot, to: Slot)
    requires Valid(s) && Proper(oldPath) && Proper(newPath) && Rename(s, oldPath, newPath).1.Done?
    ensures PlanRename(s, oldPath, newPath) == Ready(u, from, to) && t == MkdirAll(s, ParentOf(newPath), 0x1ed).0
    ensures Underway(s, oldPath, newPath, t, u, from, to)
  {
    PlanStage(s, oldPath, newPath);
    PlanValid(s, oldPath, newPath);
    ParentClean(newPath);
    ParentMade(s, newPath);
    ParentMadeExactly(s, ParentOf(newPath), 0x1ed);
    var p := PlanRename(s, oldPath, newPath);
    t, u, from, to := MkdirAll(s, ParentOf(newPath), 0x1ed).0, p.state, p.from, p.to;
    ClearedDestination(t, s.dentries[from], to, newPath);
    if to in t.dentries && !IsDir(t, t.dentries[to]) {
      FileIsEmpty(t, t.dentries[to]);
    }
  }

  lemma SlotsMeet(s: State, oldPath: Components, newPath: Components, t: State, u: State, from: Slot, to: Slot)
    requires Valid(s) && Underway(s, oldPath, newPath, t, u, from, to)
    ensures from == to <==> SameEntry(s, oldPath, newPath)
    ensures from == to ==> t == s && u == Drop(s, from)
    ensures from != to ==> from in u.dentries && u.dentries[from] == s.dentries[from]
    ensures var parent := Lookup(s, ParentOf(newPath));
      if parent.Ok? then to.parent == parent.value else to.parent !in s.inodes
  {
    NewParentIs(s, t, ParentOf(newPath), to.parent);
    assert SlotValid(s, from);
  }

  lemma NewParentIs(s: State, t: State, parent: Components, ino: int)
    requires MadeAt(s, t, parent) && Lookup(t, parent) == Ok(ino)
    ensures if Lookup(s, parent).Ok? then t == s && Lookup(s, parent) == Ok(ino) else ino !in s.inodes
  {
    FoundMeans(s, parent);
    assert parent[..|parent|] == parent;
  }

  // After a successful rename the destination names what the source named exactly when the two
  // paths were not the same entry to begin with; if they were, the entry is gone.
  lemma RenameArrivesExactly(s: State, oldPath: Components, newPath: Components)
    requires Valid(s) && Proper(oldPath) && Proper(newPath) && Rename(s, oldPath, newPath).1.Done?
    ensures HasEntry(s, oldPath) && PlanRename(s, oldPath, newPath).Ready?
    ensures var v, from, to := Rename(s, oldPath, newPath).0, EntrySlot(s, oldPath), PlanRename(s, oldPath, newPath).to;
      && to.name == NameOf(newPath) && from !in v.dentries
      && (var parent := Lookup(s, ParentOf(newPath));
          if parent.Ok? then to.parent == parent.value else to.parent !in s.inodes)
      && (to in v.dentries && v.dentries[to] == s.dentries[from] <==> !SameEntry(s, oldPath, newPath))
      && (SameEntry(s, oldPath, newPath) ==> v == Drop(s, from))
  {
    var t, u, from, to := RenameParts(s, oldPath, newPath);
    SlotsMeet(s, oldPath, newPath, t, u, from, to);
    MovedSlots(u, from, to);
  }

  lemma MovedSlots(u: State, from: Slot, to: Slot)
    requires to !in u.dentries
    ensures from !in Move(u, from, to).dentries
    ensures to in Move(u, from, to).dentries <==> from in u.dentries
    ensures from in u.dentries ==> Move(u, from, to).dentries[to] == u.dentries[from]
    ensures from !in u.dentries ==> Move(u, from, to) == u
  {
  }

  // Two spellings of one entry: a file or an empty directory is removed, and a directory with
  // entries is refused.
  lemma RenameOntoItself(s: State, oldPath: Components, newPath: Components)
    requires Valid(s) && Proper(oldPath) && Proper(newPath) && newPath != [] && HasEntry(s, oldPath)
    requires SameEntry(s, oldPath, newPath) && !NameTooLong(newPath) && !StrictPrefix(oldPath, newPath)
    ensures var k := EntrySlot(s, oldPath); var ino := s.dentries[k];
      Rename(s, oldPath, newPath) == (if IsDir(s, ino) && !IsEmptyDir(s, ino) then (s, Failed(ENOTEMPTY)) else (Drop(s, k), Done))
  {
    var k, parent := EntrySlot(s, oldPath), ParentOf(newPath);
    var ino := s.dentries[k];
    assert SlotValid(s, k);
    PrefixTestIsSubtree(oldPath, newPath);
    ParentClean(newPath);
    assert parent[..|parent|] == parent;
    FoundIs(s, parent, |parent|);
    ParentMadeExactly(s, parent, 0x1ed);
    assert MkdirAll(s, parent, 0x1ed) == (s, Done);
    if IsDir(s, ino) {
      RemoveDirIsDrop(s, k);
      assert Rmdir(s, newPath) == (if IsEmptyDir(s, ino) then (Drop(s, k), Done) else (s, Failed(ENOTEMPTY)));
    } else {
      assert Unlink(s, newPath) == (Drop(s, k), Done);
    }
    assert k !in Drop(s, k).dentries;
  }

  // ---- The tree ----

  // The entry to be moved is, or is above, the directory the new parent is found at or made in.
  ghost predicate MovesIntoItself(s: State, oldPath: Components, newPath: Components) {
    && RenameGoes(s, oldPath, newPath)
    && Below(s, s.dentries[EntrySlot(s, oldPath)], Anchor(s, ParentOf(newPath)))
  }

  // Clearing an empty destination does not change what its parent is below.
  lemma BelowCleared(t: State, to: Slot, top: int)
    requires Valid(t) && to in t.dentries && IsEmptyDir(t, t.dentries[to])
    ensures Below(Drop(t, to), top, to.parent) <==> Below(t, top, to.parent)
  {
    var u := Drop(t, to);
    if Below(t, top, to.parent) {
      var cs :| Walk(t, top, cs) == Some(to.parent);
      AvoidsOrPasses(t, u, to, top, cs);
      if Below(t, t.dentries[to], to.parent) {
        OnlyItselfBelow(t, t.dentries[to], to.parent);
      }
    }
    if Below(u, top, to.parent) {
      var cs :| Walk(u, top, cs) == Some(to.parent);
      WalkKept(u, t, top, cs);
    }
  }

  // In a tree nothing is above the directory it is in.
  lemma NotAboveItself(s: State, k: Slot)
    requires Valid(s) && Tree(s) && k in s.dentries
    ensures !Below(s, s.dentries[k], k.parent)
  {
    assert SlotValid(s, k);
    if Below(s, s.dentries[k], k.parent) {
      var down :| Walk(s, s.dentries[k], down) == Some(k.parent);
      var path :| Walk(s, ROOT, path) == Some(k.parent);
      WalkSnoc(s, ROOT, path, k.name);
      WalkAppend(s, ROOT, path + [k.name], down);
      DirPathUnique(s, path, path + [k.name] + down);
      assert false;
    }
  }

  lemma SameEntryStays(s: State, oldPath: Components, newPath: Components)
    requires Valid(s) && Tree(s) && Proper(newPath) && HasEntry(s, oldPath) && SameEntry(s, oldPath, newPath)
    ensures !Below(s, s.dentries[EntrySlot(s, oldPath)], Anchor(s, ParentOf(newPath)))
  {
    var parent := ParentOf(newPath);
    ParentClean(newPath);
    assert parent[..|parent|] == parent;
    FoundIs(s, parent, |parent|);
    NotAboveItself(s, EntrySlot(s, oldPath));
  }

  // Rename keeps every inode reachable exactly when it does not move an entry into itself.
  lemma RenameTreeExactly(s: State, oldPath: Components, newPath: Components)
    requires Valid(s) && Tree(s) && Proper(oldPath) && Proper(newPath)
    ensures Tree(Rename(s, oldPath, newPath).0) <==> !MovesIntoItself(s, oldPath, newPath)
  {
    PlanTree(s, oldPath, newPath);
    RenameSucceedsExactly(s, oldPath, newPath);
    if Rename(s, oldPath, newPath).1.Done? {
      var t, u, from, to := RenameParts(s, oldPath, newPath);
      SlotsMeet(s, oldPath, newPath, t, u, from, to);
      if from == to {
        SameEntryStays(s, oldPath, newPath);
      } else {
        MoveTreeExactly(u, from, to);
        assert SlotValid(s, from);
        if to in t.dentries {
          BelowCleared(t, to, s.dentries[from]);
        }
      }
    }
  }

  // Every other call keeps the tree.
  lemma CallTreeExactly(s: State, op: Op)
    requires Valid(s) && Tree(s)
    ensures Tree(Call(s, op).0) <==> !(op.OpRename? && MovesIntoItself(s, Normalize(op.oldPath), Normalize(op.newPath)))
  {
    match op
    case OpMkdir(p, mode) => MkdirTree(s, Normalize(p), mode);
    case OpMkdirAll(p, mode) => MkdirAllFromTree(s, Normalize(p), 0, mode);
    case OpWriteFile(p, data, mode) => NormalizeProper(p); WriteFileTree(s, Normalize(p), data, mode);
    case OpUnlink(p) => UnlinkTree(s, Normalize(p));
    case OpRmdir(p) => RmdirTree(s, Normalize(p));
    case OpRename(p, q) => NormalizeProper(p); NormalizeProper(q); RenameTreeExactly(s, Normalize(p), Normalize(q));
    case OpLink(p, q) => NormalizeProper(q); LinkTree(s, Normalize(p), Normalize(q));
    case OpSymlink(target, p) => NormalizeProper(p); SymlinkTree(s, target, Normalize(p));
    case OpMknod(p, mode, rdev) => MknodTree(s, Normalize(p), mode, rdev);
  }

  // When neither parent path crosses a symlink, the textual test keeps the new parent outside.
  lemma PlainRenameOutside(s: State, oldPath: Components, newPath: Components)
    requires PlainRename(s, oldPath, newPath) && Tree(s)
    ensures Tree(Rename(s, oldPath, newPath).0) && !MovesIntoItself(s, oldPath, newPath)
  {
    PlanTree(s, oldPath, newPath);
    if Rename(s, oldPath, newPath).1.Done? {
      var t, u, from, to := ReadyToMove(s, oldPath, newPath);
      PoisedFacts(s, oldPath, newPath, t, u, from, to);
      NotIntoItself(u, oldPath, from, ParentOf(newPath), to);
      MoveTreeExactly(u, from, to);
    }
    RenameTreeExactly(s, oldPath, newPath);
  }

  // ---- Runs without symlinks ----

  ghost predicate NoLinkInodes(s: State) {
    forall ino :: ino in s.inodes ==> !IsLink(s, ino)
  }

  lemma NoLinkOnPath(s: State, cs: Components)
    requires NoLinkInodes(s)
    ensures !HasLink(s, cs, true)
  {
    forall i: nat
      ensures !LinkAt(s, cs, true, i)
    {
    }
  }

  lemma MkdirNoLinks(s: State, cs: Components, mode: int)
    requires NoLinkInodes(s)
    ensures NoLinkInodes(Mkdir(s, cs, mode).0)
  {
  }

  lemma {:induction false} MkdirAllNoLinks(s: State, cs: Components, i: nat, mode: int)
    requires NoLinkInodes(s) && i <= |cs|
    ensures NoLinkInodes(MkdirAllFrom(s, cs, i, mode).0)
    decreases |cs| - i
  {
    if i < |cs| {
      var current := Renormalize(cs[..i + 1]);
      MkdirNoLinks(s, current, mode);
      MkdirAllNoLinks(EnsureDir(s, current, mode).0, cs, i + 1, mode);
    }
  }

  lemma DropNoLinks(s: State, k: Slot)
    requires Valid(s) && NoLinkInodes(s) && k in s.dentries
    ensures NoLinkInodes(Drop(s, k))
  {
    DropCounts(s, k);
  }

  lemma RemovalNoLinks(s: State, cs: Components)
    requires Valid(s) && NoLinkInodes(s)
    ensures NoLinkInodes(Unlink(s, cs).0) && NoLinkInodes(Rmdir(s, cs).0)
  {
    if Unlink(s, cs).1.Done? {
      DropNoLinks(s, Slot(Lookup(s, ParentOf(cs)).value, NameOf(cs)));
    }
  }

  lemma RenameNoLinks(s: State, oldPath: Components, newPath: Components)
    requires Valid(s) && NoLinkInodes(s)
    ensures NoLinkInodes(Rename(s, oldPath, newPath).0)
  {
    var t := MkdirAll(s, ParentOf(newPath), 0x1ed).0;
    MkdirAllNoLinks(s, ParentOf(newPath), 0, 0x1ed);
    MkdirAllFromKeeps(s, ParentOf(newPath), 0, 0x1ed);
    RemovalNoLinks(t, newPath);
    PlanStage(s, oldPath, newPath);
  }

  lemma WriteFileNoLinks(s: State, cs: Components, data: ChunkStore.Bytes, mode: int)
    requires NoLinkInodes(s)
    ensures NoLinkInodes(WriteFile(s, cs, data, mode).0)
  {
    MkdirAllNoLinks(s, ParentOf(cs), 0, 0x1ed);
  }

  lemma LinkNoLinks(s: State, existingPath: Components, newPath: Components)
    requires NoLinkInodes(s)
    ensures NoLinkInodes(Link(s, existingPath, newPath).0)
  {
    MkdirAllNoLinks(s, ParentOf(newPath), 0, 0x1ed);
  }

  lemma MknodNoLinks(s: State, cs: Components, mode: int, rdev: int)
    requires NoLinkInodes(s)
    ensures NoLinkInodes(Mknod(s, cs, mode, rdev).0)
  {
  }

  lemma CallNoLinks(s: State, op: Op)
    requires Valid(s) && NoLinkInodes(s) && !op.OpSymlink?
    ensures NoLinkInodes(Call(s, op).0)
  {
    match op
    case OpMkdir(p, mode) => MkdirNoLinks(s, Normalize(p), mode);
    case OpMkdirAll(p, mode) => MkdirAllNoLinks(s, Normalize(p), 0, mode);
    case OpWriteFile(p, data, mode) => WriteFileNoLinks(s, Normalize(p), data, mode);
    case OpUnlink(p) => RemovalNoLinks(s, Normalize(p));
    case OpRmdir(p) => RemovalNoLinks(s, Normalize(p));
    case OpRename(p, q) => RenameNoLinks(s, Normalize(p), Normalize(q));
    case OpLink(p, q) => LinkNoLinks(s, Normalize(p), Normalize(q));
    case OpMknod(p, mode, rdev) => MknodNoLinks(s, Normalize(p), mode, rdev);
  }

  // What is asked of a call: absolute paths to Rename, and no Symlink.
  predicate PlainCall(op: Op) {
    !op.OpSymlink? && (op.OpRename? ==> IsAbsolute(op.oldPath) && IsAbsolute(op.newPath))
  }

  lemma PlainCallTree(s: State, op: Op)
    requires Valid(s) && Tree(s) && NoLinkInodes(s) && PlainCall(op)
    ensures Tree(Call(s, op).0)
  {
    CallTreeExactly(s, op);
    if op.OpRename? {
      var p, q := Normalize(op.oldPath), Normalize(op.newPath);
      NormalizeProper(op.oldPath);
      NormalizeProper(op.newPath);
      NoLinkOnPath(s, ParentOf(p));
      NoLinkOnPath(s, ParentOf(q));
      if p != q {
        PlainRenameOutside(s, p, q);
      } else if HasEntry(s, p) {
        SameEntryStays(s, p, q);
      }
    }
  }

  lemma {:induction false} PlainRunTree(s: State, ops: seq<Op>)
    requires Valid(s) && Tree(s) && NoLinkInodes(s) && forall i :: 0 <= i < |ops| ==> PlainCall(ops[i])
    ensures Tree(Run(s, ops))
    decreases |ops|
  {
    if ops != [] {
      CallValid(s, ops[0]);
      CallNoLinks(s, ops[0]);
      PlainCallTree(s, ops[0]);
      PlainRunTree(Call(s, ops[0]).0, ops[1..]);
    }
  }

  // From a fresh database, every run of calls with absolute paths and without Symlink, successful or
  // not, keeps every inode reachable.
  lemma FreshDatabaseRunTree(chunkSize: ChunkStore.Positive, mode: int, ops: seq<Op>)
    requires forall i :: 0 <= i < |ops| ==> PlainCall(ops[i])
    ensures Tree(Run(Initial(chunkSize, mode), ops))
  {
    InitialValid(chunkSize, mode);
    BelowSelf(Initial(chunkSize, mode), ROOT);
    PlainRunTree(Initial(chunkSize, mode), ops);
  }

  // ---- Through symlinks ----

  // Through a symlink to its own directory a file is renamed onto itself and so removed:
  // rename("/d/f", "/l/f") with l -> /d.
  lemma RenameThroughLinkRemoves(s: State, d: string, l: string, f: string, dir: int, link: int)
    requires Valid(s) && Clean([d]) && Clean([l]) && Clean([f]) && d != l && |f| <= MAX_NAME_LEN
    requires Step(s, ROOT, d) == Some(dir) && IsDir(s, dir)
    requires Slot(dir, f) in s.dentries && !IsDir(s, s.dentries[Slot(dir, f)])
    requires Step(s, ROOT, l) == Some(link) && IsLink(s, link)
    requires IsAbsolute(s.symlinks[link]) && Normalize(s.symlinks[link]) == [d]
    ensures Rename(s, [d, f], [l, f]) == (Drop(s, Slot(dir, f)), Done)
  {
    TwoNames(f, d, f);
    TwoNames(f, l, f);
    LookupThroughLink(s, d, l, dir, link);
    RenormalizeIsClean([d]);
    assert Scan(s, [d], 0, ROOT, true) == Scan(s, [d], 1, dir, true) == Found(dir);
    assert Lookup(s, [d]) == Ok(dir);
    RenameOntoItself(s, [d, f], [l, f]);
  }

  // A relative path keeps its leading "..", which the textual test takes for a name and the lookup
  // of the parent drops: rename("/a", "../a/b") also cuts a off, without any symlink.
  lemma RelativeRenameCutsOff(s: State, a: string, b: string, d: int)
    requires Valid(s) && Tree(s) && Clean([a]) && Clean([b]) && |b| <= MAX_NAME_LEN
    requires Step(s, ROOT, a) == Some(d) && IsDir(s, d) && Step(s, d, b).None?
    ensures Proper(["..", a, b]) && Rename(s, [a], ["..", a, b]).1.Done? && !Tree(Rename(s, [a], ["..", a, b]).0)
  {
    RelativeHidesParent(s, a, b, d);
    RenameSucceedsExactly(s, [a], ["..", a, b]);
    RenameTreeExactly(s, [a], ["..", a, b]);
  }

  lemma RelativeHidesParent(s: State, a: string, b: string, d: int)
    requires Valid(s) && Tree(s) && Clean([a]) && Clean([b]) && |b| <= MAX_NAME_LEN
    requires Step(s, ROOT, a) == Some(d) && IsDir(s, d) && Step(s, d, b).None?
    ensures Proper(["..", a, b]) && MovesIntoItself(s, [a], ["..", a, b])
  {
    assert a in [a] && b in [b];
    assert IsName("..");
    DropsParent(a, b);
    OneStepFound(s, a, d);
    assert HasEntry(s, [a]) && EntrySlot(s, [a]) == Slot(ROOT, a) by {
      ParentOfClean([a]);
      RootFound(s);
    }
    BelowSelf(s, d);
  }

  lemma OneStepFound(s: State, a: string, d: int)
    requires Valid(s) && Clean([a]) && Step(s, ROOT, a) == Some(d) && IsDir(s, d)
    ensures Lookup(s, [a]) == Ok(d) && FoundDepth(s, [a]) == 1 && Anchor(s, [a]) == d
  {
    RenormalizeIsClean([a]);
    assert Scan(s, [a], 0, ROOT, true) == Scan(s, [a], 1, d, true) == Found(d);
    assert [a][..1] == [a];
    FoundIs(s, [a], 1);
  }

  lemma DropsParent(a: string, b: string)
    requires Clean([a])
    ensures ParentOf(["..", a, b]) == [a]
  {
    assert a in [a];
    var cs := ["..", a];
    assert ["..", a, b][..2] == cs;
    assert cs[1..] == [a] && [a][1..] == [];
    assert CleanStep(true, [], "..") == [] && CleanStep(true, [], a) == [a];
    assert CleanFrom(true, [a], []) == [a];
    assert CleanFrom(true, [], [a]) == [a];
    assert CleanFrom(true, [], cs) == [a];
  }

  // Through a symlink to the moved directory the textual test does not see that the new
  // parent is the directory itself: rename("/a", "/l/b") with l -> /a cuts a off the root.
  lemma RenameThroughLinkCutsOff(s: State, a: string, l: string, b: string, d: int, link: int)
    requires Valid(s) && Tree(s) && Clean([a]) && Clean([l]) && Clean([b]) && a != l && |b| <= MAX_NAME_LEN
    requires Step(s, ROOT, a) == Some(d) && IsDir(s, d) && Step(s, d, b).None?
    requires Step(s, ROOT, l) == Some(link) && IsLink(s, link)
    requires IsAbsolute(s.symlinks[link]) && Normalize(s.symlinks[link]) == [a]
    ensures Rename(s, [a], [l, b]) == (Move(s, Slot(ROOT, a), Slot(d, b)), Done)
    ensures !Tree(Rename(s, [a], [l, b]).0)
  {
    ThroughLinkPlan(s, a, l, b, d, link);
    BelowSelf(s, d);
    MoveTreeExactly(s, Slot(ROOT, a), Slot(d, b));
  }

  // Three calls on a fresh database are enough: mkdir /a, symlink /l to /a, rename /a to /l/b.
  lemma ThreeCallsCutOff(chunkSize: ChunkStore.Positive, mode: int, a: string, l: string, b: string)
    requires Clean([a]) && Clean([l]) && Clean([b]) && a != l
    requires |a| <= MAX_NAME_LEN && |l| <= MAX_NAME_LEN && |b| <= MAX_NAME_LEN
    ensures var made := Call(Initial(chunkSize, mode), OpMkdir(ToPath([a]), 0x1ed));
      var linked := Call(made.0, OpSymlink(ToPath([a]), ToPath([l])));
      var moved := Call(linked.0, OpRename(ToPath([a]), ToPath([l, b])));
      && made.1.Done? && linked.1.Done? && moved.1.Done?
      && Tree(linked.0) && !Tree(moved.0)
  {
    var s := Initial(chunkSize, mode);
    TwoNames(a, l, b);
    NormalizeClean([a]);
    NormalizeClean([l]);
    NormalizeClean([l, b]);
    DirThenLink(s, a, l);
    DirThenLinkTree(chunkSize, mode, a, l);
    LinkedThenMoved(Symlink(Mkdir(s, [a], 0x1ed).0, ToPath([a]), [l]).0, a, l, b);
  }

  lemma LinkedThenMoved(t: State, a: string, l: string, b: string)
    requires Valid(t) && Tree(t) && Clean([a]) && Clean([l]) && Clean([b]) && a != l && |b| <= MAX_NAME_LEN
    requires t.dentries == map[Slot(ROOT, a) := 2, Slot(ROOT, l) := 3]
    requires IsDir(t, 2) && IsLink(t, 3) && 3 in t.symlinks && t.symlinks[3] == ToPath([a])
    ensures Rename(t, [a], [l, b]).1.Done? && !Tree(Rename(t, [a], [l, b]).0)
  {
    NormalizeClean([a]);
    RenameThroughLinkCutsOff(t, a, l, b, 2, 3);
  }

  lemma DirThenLinkTree(chunkSize: ChunkStore.Positive, mode: int, a: string, l: string)
    requires Proper([a]) && Proper([l])
    ensures var t := Symlink(Mkdir(Initial(chunkSize, mode), [a], 0x1ed).0, ToPath([a]), [l]).0; Valid(t) && Tree(t)
  {
    var s := Initial(chunkSize, mode);
    InitialValid(chunkSize, mode);
    BelowSelf(s, ROOT);
    MkdirValid(s, [a], 0x1ed);
    MkdirTree(s, [a], 0x1ed);
    SymlinkValid(Mkdir(s, [a], 0x1ed).0, ToPath([a]), [l]);
    SymlinkTree(Mkdir(s, [a], 0x1ed).0, ToPath([a]), [l]);
  }

  lemma NormalizeClean(cs: Components)
    requires Clean(cs)
    ensures Normalize(ToPath(cs)) == cs && Proper(cs)
  {
    NormalizeToPath(cs);
    RenormalizeIsClean(cs);
  }

  lemma DirThenLink(s: State, a: string, l: string)
    requires s.nextIno == 2 && s.dentries == map[] && IsDir(s, ROOT) && s.inodes.Keys == {ROOT}
    requires Clean([a]) && Clean([l]) && a != l && |a| <= MAX_NAME_LEN && |l| <= MAX_NAME_LEN
    ensures var (u, made) := Mkdir(s, [a], 0x1ed); var (t, linked) := Symlink(u, ToPath([a]), [l]);
      && made.Done? && linked.Done?
      && t.dentries == map[Slot(ROOT, a) := 2, Slot(ROOT, l) := 3]
      && IsDir(t, 2) && IsLink(t, 3) && 3 in t.symlinks && t.symlinks[3] == ToPath([a])
  {
    ParentOfClean([a]);
    ParentOfClean([l]);
    assert Lookup(s, []) == Ok(ROOT);
    var u := Mkdir(s, [a], 0x1ed).0;
    assert Lookup(u, []) == Ok(ROOT);
    assert MkdirAllFrom(u, [], 0, 0x1ed) == (u, Done);
  }

  lemma ThroughLinkPlan(s: State, a: string, l: string, b: string, d: int, link: int)
    requires Valid(s) && Clean([a]) && Clean([l]) && Clean([b]) && a != l && |b| <= MAX_NAME_LEN
    requires Step(s, ROOT, a) == Some(d) && IsDir(s, d) && Step(s, d, b).None?
    requires Step(s, ROOT, l) == Some(link) && IsLink(s, link)
    requires IsAbsolute(s.symlinks[link]) && Normalize(s.symlinks[link]) == [a]
    ensures Proper([a]) && Proper([l, b])
    ensures PlanRename(s, [a], [l, b]) == Ready(s, Slot(ROOT, a), Slot(d, b))
  {
    TwoNames(a, l, b);
    PrefixTestIsSubtree([a], [l, b]);
    LookupThroughLink(s, a, l, d, link);
    OneDirThere(s, l, d);
    assert Lookup(s, []) == Ok(ROOT);
  }

  lemma TwoNames(a: string, l: string, b: string)
    requires Clean([a]) && Clean([l]) && Clean([b])
    ensures Clean([l, b]) && ParentOf([l, b]) == [l] && NameOf([l, b]) == b
    ensures ParentOf([a]) == [] && NameOf([a]) == a
  {
    assert a in [a] && l in [l] && b in [b];
    ParentOfClean([a]);
    ParentOfClean([l, b]);
  }

  lemma OneDirThere(s: State, l: string, d: int)
    requires Clean([l]) && Lookup(s, [l]) == Ok(d) && IsDir(s, d)
    ensures MkdirAll(s, [l], 0x1ed) == (s, Done)
  {
    assert [l][..1] == [l];
    RenormalizeIsClean([l]);
    assert MkdirAllFrom(s, [l], 1, 0x1ed) == (s, Done);
  }

  lemma LookupThroughLink(s: State, a: string, l: string, d: int, link: int)
    requires Valid(s) && Clean([a]) && Clean([l])
    requires Step(s, ROOT, a) == Some(d) && IsDir(s, d)
    requires Step(s, ROOT, l) == Some(link) && IsLink(s, link)
    requires IsAbsolute(s.symlinks[link]) && Normalize(s.symlinks[link]) == [a]
    ensures Lookup(s, [l]) == Ok(d)
  {
    RenormalizeIsClean([l]);
    var target := s.symlinks[link];
    assert Split(target) + [l][1..] == Split(target);
    assert Redirect([l], 0, target) == [a];
    assert Scan(s, [l], 0, ROOT, true) == AtLink(0, link);
    assert Scan(s, [a], 0, ROOT, true) == Scan(s, [a], 1, d, true) == Found(d);
    assert Resolve(s, [a], true, MAX_SYMLINK_DEPTH - 1) == Ok(d);
  }
}
