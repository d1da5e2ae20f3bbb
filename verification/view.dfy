// Tables without symlinks and hard links seen as a tree of paths, and what the
// namespace operations do to that tree.
module PlainView {
  import opened Common
  import opened Paths
  import opened ChunkStore
  import opened Tables
  import opened Resolution
  import opened Namespace
  import opened RenameTree
  import opened RenamePaths

  datatype Node = Dir | File(data: Bytes, attr: Attr)

  predicate PlainInode(s: State, ino: int)
    requires ino in s.inodes
  {
    (IsDir(s, ino) || IsType(s, ino, REG)) && (ino != ROOT ==> s.inodes[ino].nlink == 1)
  }

  // Directories and regular files only, one dentry each.
  ghost predicate Plain(s: State) {
    Valid(s) && forall ino :: ino in s.inodes ==> PlainInode(s, ino)
  }

  ghost function FileData(s: State, ino: int): Bytes {
    if ino in s.chunks then AllRows(s.chunks[ino]) else []
  }

  ghost function NodeOf(s: State, ino: int): Node
    requires ino in s.inodes
  {
    if IsDir(s, ino) then Dir else File(FileData(s, ino), s.inodes[ino].attr)
  }

  // What is at a path.
  ghost function View(s: State, cs: Components): Option<Node> {
    var at := Walk(s, ROOT, cs);
    if at.None? || at.value !in s.inodes then None else Some(NodeOf(s, at.value))
  }

  lemma ViewExists(s: State, cs: Components)
    requires Plain(s)
    ensures View(s, cs).Some? <==> Walk(s, ROOT, cs).Some?
    ensures View(s, cs) == Some(Dir) <==> Walk(s, ROOT, cs).Some? && IsDir(s, Walk(s, ROOT, cs).value)
  {
    if Walk(s, ROOT, cs).Some? {
      WalkLive(s, ROOT, cs);
    }
  }

  // Whatever has something below it is a directory.
  lemma ViewParent(s: State, cs: Components, q: Components)
    requires Plain(s) && View(s, q).Some? && cs <= q && cs != q
    ensures View(s, cs) == Some(Dir)
  {
    ViewExists(s, q);
    ViewExists(s, cs);
    assert q == cs + q[|cs|..];
    WalkAppend(s, ROOT, cs, q[|cs|..]);
    WalkLive(s, ROOT, cs);
    WalkLive(s, Walk(s, ROOT, cs).value, q[|cs|..]);
  }

  lemma NoLinks(s: State, cs: Components)
    requires Plain(s)
    ensures !HasLink(s, cs, true)
  {
    forall i: nat | i < |cs| && Walk(s, ROOT, cs[..i + 1]).Some?
      ensures !LinkAt(s, cs, true, i)
    {
      WalkLive(s, ROOT, cs[..i + 1]);
      assert PlainInode(s, Walk(s, ROOT, cs[..i + 1]).value);
    }
  }

  // Looking up a path finds what the tree has there; a file on the way gives ENOTDIR.
  lemma LookupView(s: State, cs: Components)
    requires Plain(s) && Clean(cs)
    ensures Lookup(s, cs) ==
      if Walk(s, ROOT, cs).Some? then Ok(Walk(s, ROOT, cs).value)
      else if Blocked(s, cs) then Err(ENOTDIR) else Err(ENOENT)
  {
    NoLinks(s, cs);
    LookupPlain(s, cs);
    RenormalizeIsClean(cs);
    ScanFromRoot(s, cs, true);
  }

  // ReadFile: all rows of the inode the path leads to.
  ghost function ReadPath(s: State, cs: Components): Result<Bytes> {
    match Lookup(s, cs)
    case Err(e) => Err(e)
    case Ok(ino) =>
      if ino !in s.inodes then Err(ENOENT)
      else if IsDir(s, ino) then Err(EISDIR)
      else Ok(FileData(s, ino))
  }

  lemma ReadPathLaw(s: State, cs: Components)
    requires Plain(s) && Clean(cs)
    ensures ReadPath(s, cs) ==
      if View(s, cs) == Some(Dir) then Err(EISDIR)
      else if View(s, cs).Some? then Ok(View(s, cs).value.data)
      else if Blocked(s, cs) then Err(ENOTDIR) else Err(ENOENT)
  {
    LookupView(s, cs);
    ViewExists(s, cs);
    if Walk(s, ROOT, cs).Some? {
      WalkLive(s, ROOT, cs);
    }
  }

  // A file has one path too.
  lemma PathUnique(s: State, a: Components, b: Components)
    requires Plain(s) && Walk(s, ROOT, a).Some? && Walk(s, ROOT, a) == Walk(s, ROOT, b)
    ensures a == b
  {
    WalkLive(s, ROOT, a);
    WalkLive(s, ROOT, b);
    var ino := Walk(s, ROOT, a).value;
    if a != [] && b != [] {
      var a', b', m, n := a[..|a| - 1], b[..|b| - 1], a[|a| - 1], b[|b| - 1];
      assert a == a' + [m] && b == b' + [n];
      WalkSnoc(s, ROOT, a', m);
      WalkSnoc(s, ROOT, b', n);
      var j, k := Slot(Walk(s, ROOT, a').value, m), Slot(Walk(s, ROOT, b').value, n);
      assert SlotValid(s, j) && InodeValid(s, ino) && PlainInode(s, ino);
      OneElement(Links(s, ino), j, k);
      DirPathUnique(s, a', b');
    }
  }

  // The slot of a path, and the two ways it can be.
  lemma ViewOfSlot(s: State, cs: Components, parent: int)
    requires Plain(s) && Clean(cs) && cs != [] && Walk(s, ROOT, ParentOf(cs)) == Some(parent)
    ensures Walk(s, ROOT, cs) == Step(s, parent, NameOf(cs))
  {
    ParentOfClean(cs);
    WalkSnoc(s, ROOT, ParentOf(cs), NameOf(cs));
  }

  // ---- Creating ----

  lemma CreatePlain(s: State, k: Slot, fileType: int, attr: Attr, size: int)
    requires Plain(s) && IsDir(s, k.parent) && k !in s.dentries && (fileType == DIR || fileType == REG)
    ensures Plain(Create(s, k, fileType, attr, size, 0, None))
  {
    CreateValid(s, k, fileType, attr, size, 0, None);
    FreshIno(s);
    var t := Create(s, k, fileType, attr, size, 0, None);
    forall ino | ino in t.inodes
      ensures PlainInode(t, ino)
    {
      if ino != s.nextIno {
        assert PlainInode(s, ino);
      }
    }
  }

  // Creating a slot adds exactly its path.
  lemma CreateView(s: State, pre: Components, k: Slot, fileType: int, attr: Attr, size: int, q: Components)
    requires Plain(s) && Walk(s, ROOT, pre) == Some(k.parent) && IsDir(s, k.parent) && k !in s.dentries
    requires fileType == DIR || fileType == REG
    ensures View(Create(s, k, fileType, attr, size, 0, None), q) ==
      if q == pre + [k.name] then Some(if fileType == DIR then Dir else File([], attr)) else View(s, q)
  {
    var t := Create(s, k, fileType, attr, size, 0, None);
    CreatedPath(s, pre, k, fileType, attr, size, None, q);
    FreshIno(s);
    if q != pre + [k.name] && Walk(s, ROOT, q).Some? {
      WalkLive(s, ROOT, q);
      assert Walk(s, ROOT, q).value != s.nextIno;
    }
  }

  lemma MkdirLaw(s: State, cs: Components, mode: int)
    requires Plain(s) && Clean(cs) && cs != []
    ensures var (t, r) := Mkdir(s, cs, mode);
      && Plain(t)
      && (r.Done? <==> !NameTooLong(cs) && View(s, ParentOf(cs)) == Some(Dir) && View(s, cs).None?)
      && (r.Done? ==> forall q :: View(t, q) == if q == cs then Some(Dir) else View(s, q))
      && (r.Failed? ==> t == s)
  {
    ParentOfClean(cs);
    LookupView(s, ParentOf(cs));
    ViewExists(s, ParentOf(cs));
    ViewExists(s, cs);
    if Walk(s, ROOT, ParentOf(cs)).Some? {
      ViewOfSlot(s, cs, Walk(s, ROOT, ParentOf(cs)).value);
    }
    var (t, r) := Mkdir(s, cs, mode);
    if r.Done? {
      var k := Slot(Walk(s, ROOT, ParentOf(cs)).value, NameOf(cs));
      CreatePlain(s, k, DIR, NewAttr(mode), 0);
      forall q
        ensures View(t, q) == if q == cs then Some(Dir) else View(s, q)
      {
        CreateView(s, ParentOf(cs), k, DIR, NewAttr(mode), 0, q);
      }
    }
  }

  // What MkdirAll of `path` may add: directories on the path.
  ghost predicate DirsAdded(s: State, t: State, path: Components) {
    forall q :: View(t, q) == View(s, q) || (View(s, q).None? && View(t, q) == Some(Dir) && q <= path)
  }

  lemma EnsureDirLaw(s: State, cs: Components, mode: int)
    requires Plain(s) && Clean(cs) && cs != []
    ensures var (t, r) := EnsureDir(s, cs, mode);
      && Plain(t) && DirsAdded(s, t, cs)
      && (r.Done? ==> View(t, cs) == Some(Dir))
  {
    LookupView(s, cs);
    ViewExists(s, cs);
    MkdirLaw(s, cs, mode);
  }

  lemma {:induction false} MkdirAllFromLaw(s: State, path: Components, i: nat, mode: int)
    requires Plain(s) && Clean(path) && i <= |path|
    ensures var t := MkdirAllFrom(s, path, i, mode).0; Plain(t) && DirsAdded(s, t, path)
    decreases |path| - i
  {
    if i < |path| {
      var current := path[..i + 1];
      RenormalizeIsClean(current);
      EnsureDirLaw(s, current, mode);
      var t := EnsureDir(s, current, mode).0;
      MkdirAllFromLaw(t, path, i + 1, mode);
      DirsAddedTwice(s, t, MkdirAllFrom(t, path, i + 1, mode).0, current, path);
      DirsAddedTwice(s, s, t, [], path);
    }
  }

  // MkdirAll adds directories on the path, and on success the whole path is there.
  lemma MkdirAllLaw(s: State, path: Components, mode: int)
    requires Plain(s) && Clean(path)
    ensures var (t, r) := MkdirAll(s, path, mode);
      && Plain(t) && DirsAdded(s, t, path)
      && (r.Done? ==> View(t, path) == Some(Dir))
  {
    MkdirAllFromLaw(s, path, 0, mode);
    var (t, r) := MkdirAll(s, path, mode);
    if r.Done? {
      RenormalizeIsClean(path);
      if path == [] {
        assert Lookup(s, path) == Ok(ROOT);
      }
      MkdirAllFound(s, path, 0, mode);
      LookupView(t, path);
      ViewExists(t, path);
    }
  }

  lemma DirsAddedTwice(s: State, t: State, u: State, a: Components, b: Components)
    requires DirsAdded(s, t, a) && DirsAdded(t, u, b) && a <= b
    ensures DirsAdded(s, u, b)
  {
    forall q
      ensures View(u, q) == View(s, q) || (View(s, q).None? && View(u, q) == Some(Dir) && q <= b)
    {
      assert View(t, q) == View(s, q) || (View(s, q).None? && View(t, q) == Some(Dir) && q <= a);
    }
  }

  // ---- Writing a file ----

  // Replacing the rows of one inode changes what is at its path only.
  lemma PutDataView(s: State, path: Components, ino: int, data: Bytes, q: Components)
    requires Plain(s) && Walk(s, ROOT, path) == Some(ino) && ino in s.inodes && !IsDir(s, ino)
    ensures View(PutData(s, ino, data), q) == if q == path then Some(File(data, s.inodes[ino].attr)) else View(s, q)
  {
    var t := PutData(s, ino, data);
    SameWalk(s, t, ROOT, q);
    CutIsDense(s.chunkSize, data);
    if q != path && Walk(s, ROOT, q).Some? {
      WalkLive(s, ROOT, q);
      if Walk(s, ROOT, q).value == ino {
        PathUnique(s, q, path);
      }
    }
  }

  lemma {:induction false} SameWalk(s: State, t: State, from: int, cs: Components)
    requires s.dentries == t.dentries
    ensures Walk(s, from, cs) == Walk(t, from, cs)
    decreases |cs|
  {
    if cs != [] && Step(s, from, cs[0]).Some? {
      SameWalk(s, t, Step(s, from, cs[0]).value, cs[1..]);
    }
  }

  lemma PutDataPlain(s: State, ino: int, data: Bytes)
    requires Plain(s) && ino in s.inodes && !IsDir(s, ino)
    ensures Plain(PutData(s, ino, data))
  {
    PutDataValid(s, ino, data);
    var t := PutData(s, ino, data);
    forall i | i in t.inodes
      ensures PlainInode(t, i)
    {
      assert PlainInode(s, i);
    }
  }

  // The attributes of a file after WriteFile: kept if it was there, else new.
  ghost function AttrAfter(s: State, cs: Components, mode: int): Attr {
    var node := View(s, cs);
    if node.Some? && node.value.File? then node.value.attr else NewAttr(mode)
  }

  // The last statements of WriteFile, with the parent in place.
  function Store(t: State, k: Slot, data: Bytes, mode: int): State
    requires k in t.dentries ==> t.dentries[k] in t.inodes
  {
    if k in t.dentries then PutData(t, t.dentries[k], data)
    else PutData(Create(t, k, REG, NewAttr(mode), |data|, 0, None), t.nextIno, data)
  }

  lemma StoreLaw(t: State, cs: Components, data: Bytes, mode: int, k: Slot)
    requires Plain(t) && Clean(cs) && cs != [] && Walk(t, ROOT, ParentOf(cs)) == Some(k.parent) && IsDir(t, k.parent)
    requires k.name == NameOf(cs) && View(t, cs) != Some(Dir) && (k in t.dentries ==> t.dentries[k] in t.inodes)
    ensures var u := Store(t, k, data, mode);
      && Plain(u)
      && forall q :: View(u, q) == if q == cs then Some(File(data, AttrAfter(t, cs, mode))) else View(t, q)
  {
    ViewOfSlot(t, cs, k.parent);
    ViewExists(t, cs);
    if k in t.dentries {
      var ino := t.dentries[k];
      PutDataPlain(t, ino, data);
      forall q
        ensures View(PutData(t, ino, data), q) ==
          if q == cs then Some(File(data, AttrAfter(t, cs, mode))) else View(t, q)
      {
        PutDataView(t, cs, ino, data, q);
      }
    } else {
      StoreNewLaw(t, cs, data, NewAttr(mode), k);
    }
  }

  lemma StoreNewLaw(t: State, cs: Components, data: Bytes, attr: Attr, k: Slot)
    requires Plain(t) && Clean(cs) && cs != [] && Walk(t, ROOT, ParentOf(cs)) == Some(k.parent) && IsDir(t, k.parent)
    requires k !in t.dentries && k.name == NameOf(cs)
    ensures var u := PutData(Create(t, k, REG, attr, |data|, 0, None), t.nextIno, data);
      && Plain(u)
      && forall q :: View(u, q) == if q == cs then Some(File(data, attr)) else View(t, q)
  {
    ParentOfClean(cs);
    var c := Create(t, k, REG, attr, |data|, 0, None);
    CreatePlain(t, k, REG, attr, |data|);
    CreatedPath(t, ParentOf(cs), k, REG, attr, |data|, None, cs);
    PutDataPlain(c, t.nextIno, data);
    var u := PutData(c, t.nextIno, data);
    forall q
      ensures View(u, q) == if q == cs then Some(File(data, attr)) else View(t, q)
    {
      CreateView(t, ParentOf(cs), k, REG, attr, |data|, q);
      PutDataView(c, cs, t.nextIno, data, q);
    }
  }

  // WriteFile is MkdirAll of the parent followed by Store.
  lemma WriteFileParts(s: State, cs: Components, data: Bytes, mode: int) returns (t: State, k: Slot)
    requires Plain(s) && Clean(cs) && cs != [] && WriteFile(s, cs, data, mode).1.Done?
    ensures Plain(t) && DirsAdded(s, t, ParentOf(cs)) && View(t, ParentOf(cs)) == Some(Dir)
    ensures Walk(t, ROOT, ParentOf(cs)) == Some(k.parent) && IsDir(t, k.parent) && k.name == NameOf(cs)
    ensures View(t, cs) != Some(Dir) && (k in t.dentries ==> t.dentries[k] in t.inodes)
    ensures WriteFile(s, cs, data, mode).0 == Store(t, k, data, mode)
  {
    ParentOfClean(cs);
    var parent := ParentOf(cs);
    MkdirAllLaw(s, parent, 0x1ed);
    t := MkdirAll(s, parent, 0x1ed).0;
    LookupView(t, parent);
    ViewExists(t, parent);
    ViewExists(t, cs);
    k := Slot(Walk(t, ROOT, parent).value, NameOf(cs));
    ViewOfSlot(t, cs, k.parent);
  }

  // WriteFile puts the data at the path, makes the missing directories above it, and
  // changes nothing else.
  lemma WriteFileLaw(s: State, cs: Components, data: Bytes, mode: int)
    requires Plain(s) && Clean(cs) && cs != [] && WriteFile(s, cs, data, mode).1.Done?
    ensures var t := WriteFile(s, cs, data, mode).0;
      && Plain(t)
      && View(s, cs) != Some(Dir)
      && View(t, cs) == Some(File(data, AttrAfter(s, cs, mode)))
      && forall q :: q != cs ==> View(t, q) == (if q <= cs then Some(Dir) else View(s, q))
    ensures forall q :: q <= cs && q != cs ==> View(s, q).None? || View(s, q) == Some(Dir)
  {
    var t, k := WriteFileParts(s, cs, data, mode);
    ParentOfClean(cs);
    assert View(t, cs) == View(s, cs);
    StoreLaw(t, cs, data, mode, k);
    forall q | q <= cs && q != cs
      ensures View(t, q) == Some(Dir)
    {
      if q != ParentOf(cs) {
        ViewParent(t, q, ParentOf(cs));
      }
    }
  }

  // ---- When MkdirAll and WriteFile succeed ----

  // There is a directory at x, or one can be made.
  ghost predicate Fits(s: State, x: Components) {
    View(s, x) == Some(Dir) || (View(s, x).None? && !NameTooLong(x))
  }

  lemma RoundFits(s: State, x: Components, mode: int)
    requires Plain(s) && Clean(x) && x != [] && View(s, ParentOf(x)) == Some(Dir)
    ensures var (t, r) := EnsureDir(s, x, mode);
      && (r.Done? <==> Fits(s, x))
      && (r.Done? ==> Plain(t) && View(t, x) == Some(Dir) && forall q :: q != x ==> View(t, q) == View(s, q))
      && (r.Failed? ==> t == s)
  {
    ParentOfClean(x);
    LookupView(s, x);
    ViewExists(s, x);
    MkdirLaw(s, x, mode);
    if View(s, x).None? {
      DirsNotBlocked(s, x);
    }
  }

  lemma DirsNotBlocked(s: State, x: Components)
    requires Plain(s) && x != [] && View(s, x[..|x| - 1]) == Some(Dir)
    ensures !Blocked(s, x)
  {
    var parent := x[..|x| - 1];
    forall i: nat | i + 1 < |x|
      ensures !BlockedAt(s, x, i)
    {
      var q := x[..i + 1];
      if q != parent {
        assert q <= parent;
        ViewParent(s, q, parent);
      }
      ViewExists(s, q);
    }
  }

  lemma {:induction false} MkdirAllFits(s: State, path: Components, i: nat, mode: int)
    requires Plain(s) && Clean(path) && i <= |path| && View(s, path[..i]) == Some(Dir)
    ensures MkdirAllFrom(s, path, i, mode).1.Done? <==> forall j :: i < j <= |path| ==> Fits(s, path[..j])
    decreases |path| - i
  {
    if i < |path| {
      var x := path[..i + 1];
      RenormalizeIsClean(x);
      ParentOfClean(x);
      assert x[..i] == path[..i];
      RoundFits(s, x, mode);
      var (t, r) := EnsureDir(s, x, mode);
      if r.Done? {
        MkdirAllFits(t, path, i + 1, mode);
        forall j | i + 1 < j <= |path|
          ensures Fits(t, path[..j]) <==> Fits(s, path[..j])
        {
          assert path[..j] != x;
        }
        assert MkdirAllFrom(s, path, i, mode) == MkdirAllFrom(t, path, i + 1, mode);
      }
    }
  }

  ghost predicate AllFit(s: State, path: Components, i: nat, n: nat)
    requires n <= |path|
  {
    forall j :: i < j <= n ==> Fits(s, path[..j])
  }

  // MkdirAll makes the directories of its path up to the first that cannot be made.
  lemma {:induction false} MkdirAllMakes(s: State, path: Components, i: nat, mode: int, q: Components)
    requires Plain(s) && Clean(path) && i <= |path| && View(s, path[..i]) == Some(Dir)
    ensures View(MkdirAllFrom(s, path, i, mode).0, q).Some? <==>
      View(s, q).Some? || (i < |q| && q <= path && AllFit(s, path, i, |q|))
    decreases |path| - i
  {
    if i < |path| {
      var x := path[..i + 1];
      RenormalizeIsClean(x);
      ParentOfClean(x);
      assert x[..i] == path[..i];
      RoundFits(s, x, mode);
      var (t, r) := EnsureDir(s, x, mode);
      if r.Done? {
        MkdirAllMakes(t, path, i + 1, mode, q);
        assert MkdirAllFrom(s, path, i, mode) == MkdirAllFrom(t, path, i + 1, mode);
        if i < |q| && q <= path {
          RestFits(s, t, path, i, |q|);
          assert |q| == i + 1 ==> q == x;
        }
      }
    }
  }

  lemma RestFits(s: State, t: State, path: Components, i: nat, n: nat)
    requires i < n <= |path| && Fits(s, path[..i + 1])
    requires forall q :: q != path[..i + 1] ==> View(t, q) == View(s, q)
    ensures AllFit(s, path, i, n) <==> AllFit(t, path, i + 1, n)
  {
    forall j | i + 1 < j <= n
      ensures Fits(t, path[..j]) <==> Fits(s, path[..j])
    {
      assert path[..j] != path[..i + 1];
    }
  }

  lemma FailedWriteMakes(s: State, cs: Components, data: Bytes, mode: int, q: Components)
    requires Plain(s) && Clean(cs) && cs != [] && WriteFile(s, cs, data, mode).1.Failed?
    ensures View(WriteFile(s, cs, data, mode).0, q).Some? <==>
      View(s, q).Some? || (!NameTooLong(cs) && 0 < |q| < |cs| && q <= cs && forall j :: 0 < j <= |q| ==> Fits(s, cs[..j]))
  {
    ParentOfClean(cs);
    var parent := ParentOf(cs);
    ViewExists(s, []);
    assert parent[..0] == [];
    MkdirAllMakes(s, parent, 0, 0x1ed, q);
    assert q <= parent <==> |q| < |cs| && q <= cs;
    assert forall j :: 0 < j < |cs| ==> parent[..j] == cs[..j];
  }

  // WriteFile succeeds exactly when the name is short, the path is no directory, and every
  // directory above it is there or can be made; when it fails, it may have made some of them.
  lemma WriteFileExactly(s: State, cs: Components, data: Bytes, mode: int)
    requires Plain(s) && Clean(cs) && cs != []
    ensures var (t, r) := WriteFile(s, cs, data, mode);
      && (r.Done? <==> !NameTooLong(cs) && View(s, cs) != Some(Dir) && forall j :: 0 < j < |cs| ==> Fits(s, cs[..j]))
      && (r.Failed? ==> Plain(t) && DirsAdded(s, t, ParentOf(cs)))
  {
    ParentOfClean(cs);
    var parent := ParentOf(cs);
    MkdirAllLaw(s, parent, 0x1ed);
    ViewExists(s, []);
    assert parent[..0] == [];
    MkdirAllFits(s, parent, 0, 0x1ed);
    assert forall j :: 0 < j < |cs| ==> parent[..j] == cs[..j];
    var (t, made) := MkdirAll(s, parent, 0x1ed);
    if made.Done? {
      LookupView(t, parent);
      ViewExists(t, parent);
      ViewExists(t, cs);
      ViewOfSlot(t, cs, Walk(t, ROOT, parent).value);
      assert View(t, cs) == View(s, cs);
      if Walk(t, ROOT, cs).Some? {
        WalkLive(t, ROOT, cs);
      }
    }
  }

  // ---- Removing ----

  lemma DropPlain(s: State, k: Slot)
    requires Plain(s) && k in s.dentries && IsEmptyDir(s, s.dentries[k])
    ensures Plain(Drop(s, k))
  {
    DropValid(s, k);
    DropCounts(s, k);
    assert SlotValid(s, k) && PlainInode(s, s.dentries[k]);
    var t := Drop(s, k);
    forall ino | ino in t.inodes
      ensures PlainInode(t, ino)
    {
      assert PlainInode(s, ino);
    }
  }

  // Dropping the only dentry of a file or an empty directory removes its path only.
  lemma DropView(s: State, cs: Components, k: Slot, q: Components)
    requires Plain(s) && Clean(cs) && cs != [] && k in s.dentries && IsEmptyDir(s, s.dentries[k])
    requires Walk(s, ROOT, ParentOf(cs)) == Some(k.parent) && k.name == NameOf(cs)
    ensures View(Drop(s, k), q) == if q == cs then None else View(s, q)
  {
    ParentOfClean(cs);
    assert SlotValid(s, k);
    ClearedWalk(s, ParentOf(cs), k, q);
    ViewOfSlot(s, cs, k.parent);
    if cs <= q && q != cs {
      assert q == cs + q[|cs|..];
      WalkAppend(s, ROOT, cs, q[|cs|..]);
    } else if q != cs && Walk(s, ROOT, q).Some? {
      DropNode(s, cs, k, q);
    }
  }

  lemma DropNode(s: State, cs: Components, k: Slot, q: Components)
    requires Plain(s) && k in s.dentries && Walk(s, ROOT, cs) == Some(s.dentries[k])
    requires q != cs && Walk(s, ROOT, q).Some?
    ensures var ino := Walk(s, ROOT, q).value;
      ino in s.inodes && ino in Drop(s, k).inodes && NodeOf(Drop(s, k), ino) == NodeOf(s, ino)
  {
    DropCounts(s, k);
    WalkLive(s, ROOT, q);
    if Walk(s, ROOT, q).value == s.dentries[k] {
      PathUnique(s, q, cs);
      assert false;
    }
  }

  // Unlink removes a file; with nothing at the path and no file above it, it says ENOENT.
  lemma UnlinkLaw(s: State, cs: Components)
    requires Plain(s) && Clean(cs) && cs != []
    ensures var (t, r) := Unlink(s, cs);
      && Plain(t)
      && (r.Done? <==> View(s, cs).Some? && View(s, cs).value.File?)
      && (r.Done? ==> forall q :: View(t, q) == if q == cs then None else View(s, q))
      && (r.Failed? ==> t == s)
      && (View(s, cs).None? && !Blocked(s, cs) ==> r == Failed(ENOENT))
  {
    RemovalLookup(s, cs);
    var (t, r) := Unlink(s, cs);
    if r.Done? {
      var k := Slot(Walk(s, ROOT, ParentOf(cs)).value, NameOf(cs));
      FileIsEmpty(s, s.dentries[k]);
      DropPlain(s, k);
      forall q
        ensures View(t, q) == if q == cs then None else View(s, q)
      {
        DropView(s, cs, k, q);
      }
    }
  }

  lemma RemovalLookup(s: State, cs: Components)
    requires Plain(s) && Clean(cs) && cs != []
    ensures var at := Walk(s, ROOT, ParentOf(cs));
      && (at.Some? ==> Lookup(s, ParentOf(cs)) == Ok(at.value) && Walk(s, ROOT, cs) == Step(s, at.value, NameOf(cs)))
      && (at.None? ==> Lookup(s, ParentOf(cs)).Err? && Walk(s, ROOT, cs).None?)
      && (at.None? && !Blocked(s, cs) ==> Lookup(s, ParentOf(cs)) == Err(ENOENT))
    ensures View(s, cs).Some? <==> Walk(s, ROOT, cs).Some?
    ensures View(s, cs).Some? ==> Walk(s, ROOT, cs).value in s.inodes
  {
    ParentOfClean(cs);
    var parent := ParentOf(cs);
    LookupView(s, parent);
    ViewExists(s, cs);
    WalkSnoc(s, ROOT, parent, NameOf(cs));
    forall i: nat | BlockedAt(s, parent, i)
      ensures BlockedAt(s, cs, i)
    {
      assert parent[..i + 1] == cs[..i + 1];
    }
  }

  // Rmdir removes a directory with nothing in it.
  lemma RmdirLaw(s: State, cs: Components)
    requires Plain(s) && Clean(cs) && cs != []
    ensures var (t, r) := Rmdir(s, cs);
      && Plain(t)
      && (r.Done? <==> View(s, cs) == Some(Dir) && forall n :: View(s, cs + [n]).None?)
      && (r.Done? ==> forall q :: View(t, q) == if q == cs then None else View(s, q))
      && (r.Failed? ==> t == s)
      && (View(s, cs).None? && !Blocked(s, cs) ==> r == Failed(ENOENT))
  {
    RemovalLookup(s, cs);
    var (t, r) := Rmdir(s, cs);
    if View(s, cs).Some? {
      EmptyView(s, cs);
    }
    if r.Done? {
      var k := Slot(Walk(s, ROOT, ParentOf(cs)).value, NameOf(cs));
      RemoveDirIsDrop(s, k);
      DropPlain(s, k);
      forall q
        ensures View(t, q) == if q == cs then None else View(s, q)
      {
        DropView(s, cs, k, q);
      }
    }
  }

  lemma EmptyView(s: State, cs: Components)
    requires Plain(s) && Walk(s, ROOT, cs).Some?
    ensures IsEmptyDir(s, Walk(s, ROOT, cs).value) <==> forall n :: View(s, cs + [n]).None?
  {
    var ino := Walk(s, ROOT, cs).value;
    forall n
      ensures View(s, cs + [n]).Some? <==> Slot(ino, n) in s.dentries
    {
      ViewExists(s, cs + [n]);
      WalkSnoc(s, ROOT, cs, n);
    }
    if !IsEmptyDir(s, ino) {
      var k :| k in s.dentries && k.parent == ino;
      assert View(s, cs + [k.name]).Some?;
    }
  }
}
