// Filesystem as it runs: statement by statement over its tables.
module FilesystemClass {
  import opened Common
  import opened Paths
  import opened ChunkStore
  import opened Tables
  import opened Resolution
  import NS = Namespace

  // normalizePath
  function NormalizePath(p: string): string {
    ToPath(Normalize(p))
  }

  lemma ToPathSnoc(cs: Components, n: string)
    ensures ToPath(cs + [n]) == if cs == [] then "/" + n else ToPath(cs) + "/" + n
  {
    if cs != [] {
      JoinAppend(cs, [n]);
    } else {
      assert cs + [n] == [n];
    }
  }

  lemma ToPathRoot(cs: Components)
    requires Proper(cs)
    ensures ToPath(cs) == "/" <==> cs == []
  {
    if cs != [] {
      JoinEnds(cs);
    }
  }

  class Filesystem {
    const chunkSize: Positive
    var inodes: map<int, Inode>
    var dentries: map<Slot, int>
    var chunks: map<int, map<nat, Bytes>>
    var symlinks: map<int, string>
    var nextIno: int

    // A fresh database: the root inode only.
    constructor (chunkSize: Positive, mode: int)
      ensures Rows() == Initial(chunkSize, mode) && Valid(Rows())
    {
      this.chunkSize := chunkSize;
      inodes := map[ROOT := Inode(DIR, NewAttr(mode), 1, 0, 0)];
      dentries, chunks, symlinks, nextIno := map[], map[], map[], 2;
      new;
      InitialValid(chunkSize, mode);
    }

    function Rows(): State
      reads this
    {
      State(chunkSize, inodes, dentries, chunks, symlinks, nextIno)
    }

    // One pass over the components, up to the first symlink that has to be followed.
    method ScanComponents(components: Components, followLast: bool) returns (r: Scanned, resolvedDir: string)
      requires Proper(components)
      ensures r == Scan(Rows(), components, 0, ROOT, followLast)
      ensures r.AtLink? ==> resolvedDir == ToPath(components[..r.pos])
    {
      ghost var s := Rows();
      var currentIno, i := ROOT, 0;
      resolvedDir := "/";
      while i < |components|
        invariant 0 <= i <= |components| && resolvedDir == ToPath(components[..i])
        invariant Scan(s, components, 0, ROOT, followLast) == Scan(s, components, i, currentIno, followLast)
      {
        var slot := Slot(currentIno, components[i]);
        if slot !in dentries || dentries[slot] !in inodes { return Missing, resolvedDir; }
        var child := dentries[slot];
        var fileType := inodes[child].fileType;
        if fileType == LNK && (i < |components| - 1 || followLast) { return AtLink(i, child), resolvedDir; }
        if i < |components| - 1 && fileType != DIR && fileType != LNK { return NotDirectory, resolvedDir; }
        currentIno := child;
        ToPathSnoc(components[..i], components[i]);
        ToPathRoot(components[..i]);
        assert components[..i + 1] == components[..i] + [components[i]];
        resolvedDir := if resolvedDir == "/" then "/" + components[i] else resolvedDir + "/" + components[i];
        i := i + 1;
      }
      r := Found(currentIno);
    }

    // Resolve a path, rebuilding the path string and starting over at each symlink.
    method ResolvePathFollow(path: string, followLast: bool) returns (r: Result<int>)
      requires path != "" && path[0] == '/'
      ensures r == Resolve(Rows(), Normalize(path), followLast, MAX_SYMLINK_DEPTH)
    {
      var p := NormalizePath(path);
      ghost var s, cs := Rows(), Normalize(path);
      NormalizeProper(path);
      ToPathRoot(cs);
      if p == "/" { return Ok(ROOT); }
      var symlinkCount := 0;
      while true
        invariant 0 <= symlinkCount <= MAX_SYMLINK_DEPTH && Clean(cs) && p == ToPath(cs)
        invariant Resolve(s, cs, followLast, MAX_SYMLINK_DEPTH - symlinkCount) ==
          Resolve(s, Normalize(path), followLast, MAX_SYMLINK_DEPTH)
        decreases MAX_SYMLINK_DEPTH - symlinkCount
      {
        var components := SplitPath(p);
        SplitPathToPath(cs);
        var scanned, resolvedDir := ScanComponents(components, followLast);
        match scanned {
          case Found(ino) => return Ok(ino);
          case Missing => return Err(ENOENT);
          case NotDirectory => return Err(ENOTDIR);
          case AtLink(i, link) =>
            symlinkCount := symlinkCount + 1;
            if symlinkCount > MAX_SYMLINK_DEPTH { return Err(ELOOP); }
            if link !in symlinks { return Err(ESQL); }
            var target := symlinks[link];
            var remaining := Join(components[i + 1..]);
            if IsAbsolute(target) {
              p := if remaining != "" then target + "/" + remaining else target;
            } else {
              p := if remaining != "" then resolvedDir + "/" + target + "/" + remaining
                   else resolvedDir + "/" + target;
            }
            RedirectPathIsRedirect(cs, i, target);
            RedirectIsClean(cs, i, target);
            p := NormalizePath(p);
            cs := Redirect(cs, i, target);
        }
      }
    }

    // resolvePathFollow(path, true) for a path given by its components.
    method Find(cs: Components) returns (r: Result<int>)
      requires Proper(cs)
      ensures r == Lookup(Rows(), cs)
    {
      NormalizeToPath(cs);
      r := ResolvePathFollow(ToPath(cs), true);
    }

    // insertInode ... RETURNING ino
    method InsertInode(fileType: int, attr: Attr, size: int, rdev: int) returns (ino: int)
      modifies this`inodes, this`nextIno
      ensures ino == old(nextIno) && nextIno == old(nextIno) + 1
      ensures inodes == old(inodes)[ino := Inode(fileType, attr, 0, size, rdev)]
    {
      ino := nextIno;
      nextIno := nextIno + 1;
      inodes := inodes[ino := Inode(fileType, attr, 0, size, rdev)];
    }

    // insertDentry and incrementNlink
    method InsertDentry(k: Slot, ino: int)
      modifies this`dentries, this`inodes
      ensures Rows() == AddLink(old(Rows()), k, ino)
    {
      dentries := dentries[k := ino];
      if ino in inodes {
        inodes := inodes[ino := inodes[ino].(nlink := inodes[ino].nlink + 1)];
      }
    }

    method CreateInode(k: Slot, fileType: int, attr: Attr, size: int, rdev: int, target: Option<string>)
      returns (ino: int)
      modifies this`inodes, this`nextIno, this`dentries, this`symlinks
      ensures Rows() == Create(old(Rows()), k, fileType, attr, size, rdev, target) && ino == old(nextIno)
    {
      ino := InsertInode(fileType, attr, size, rdev);
      if target.Some? {
        symlinks := symlinks[ino := target.value];
      }
      InsertDentry(k, ino);
      assert Rows().inodes == Create(old(Rows()), k, fileType, attr, size, rdev, target).inodes;
    }

    // deleteChunksByIno, writeChunks, updateInodeSize
    method ReplaceData(ino: int, data: Bytes)
      requires ino in inodes
      modifies this`chunks, this`inodes
      ensures Rows() == PutData(old(Rows()), ino, data)
    {
      chunks := chunks - {ino};
      var rows := CutRows(chunkSize, data);
      chunks := chunks[ino := rows];
      inodes := inodes[ino := inodes[ino].(size := |data|)];
    }

    method Mkdir(path: string, mode: int) returns (r: NS.Status)
      modifies this
      ensures (Rows(), r) == NS.Mkdir(old(Rows()), Normalize(path), mode)
    {
      NormalizeProper(path);
      r := MkdirAt(Normalize(path), mode);
    }

    method MkdirAt(cs: Components, mode: int) returns (r: NS.Status)
      requires Proper(cs)
      modifies this
      ensures (Rows(), r) == NS.Mkdir(old(Rows()), cs, mode)
    {
      if cs == [] { return NS.Failed(EEXIST); }
      if |NameOf(cs)| > MAX_NAME_LEN { return NS.Failed(ENAMETOOLONG); }
      RenormalizeIsClean(cs[..|cs| - 1]);
      var parent := Find(ParentOf(cs));
      if parent.Err? { return NS.Failed(parent.errno); }
      if !IsDir(Rows(), parent.value) { return NS.Failed(ENOTDIR); }
      var k := Slot(parent.value, NameOf(cs));
      if k in dentries { return NS.Failed(EEXIST); }
      var _ := CreateInode(k, DIR, NewAttr(mode), 0, 0, None);
      return NS.Done;
    }

    method MkdirAll(path: string, mode: int) returns (r: NS.Status)
      modifies this
      ensures (Rows(), r) == NS.MkdirAll(old(Rows()), Normalize(path), mode)
    {
      NormalizeProper(path);
      r := MkdirAllAt(Normalize(path), mode);
    }

    method MkdirAllAt(cs: Components, mode: int) returns (r: NS.Status)
      requires Proper(cs)
      modifies this
      ensures (Rows(), r) == NS.MkdirAll(old(Rows()), cs, mode)
    {
      var i := 0;
      while i < |cs|
        invariant 0 <= i <= |cs|
        invariant NS.MkdirAllFrom(Rows(), cs, i, mode) == NS.MkdirAll(old(Rows()), cs, mode)
      {
        var current := Renormalize(cs[..i + 1]);
        RenormalizeIsClean(cs[..i + 1]);
        var found := Find(current);
        match found {
          case Ok(ino) =>
            if !IsDir(Rows(), ino) { return NS.Failed(ENOTDIR); }
          case Err(e) =>
            if e != ENOENT { return NS.Failed(e); }
            r := MkdirAt(current, mode);
            if r.Failed? { return; }
        }
        i := i + 1;
      }
      return NS.Done;
    }

    // MkdirAll of the parent, then its inode number.
    method ParentFor(cs: Components) returns (r: Result<int>)
      requires Proper(cs)
      modifies this
      ensures var (t, made) := NS.MkdirAll(old(Rows()), ParentOf(cs), 0x1ed);
        Rows() == t && r == if made.Failed? then Err(made.errno) else Lookup(t, ParentOf(cs))
    {
      if cs != [] {
        RenormalizeIsClean(cs[..|cs| - 1]);
      }
      var made := MkdirAllAt(ParentOf(cs), 0x1ed);
      if made.Failed? { return Err(made.errno); }
      r := Find(ParentOf(cs));
    }

    method WriteFile(path: string, data: Bytes, mode: int) returns (r: NS.Status)
      modifies this
      ensures (Rows(), r) == NS.WriteFile(old(Rows()), Normalize(path), data, mode)
    {
      var cs := Normalize(path);
      NormalizeProper(path);
      if |NameOf(cs)| > MAX_NAME_LEN { return NS.Failed(ENAMETOOLONG); }
      var parent := ParentFor(cs);
      if parent.Err? { return NS.Failed(parent.errno); }
      var k := Slot(parent.value, NameOf(cs));
      var ino;
      if k in dentries {
        ino := dentries[k];
        if ino !in inodes { return NS.Failed(ENOENT); }
        if IsDir(Rows(), ino) { return NS.Failed(EISDIR); }
      } else {
        ino := CreateInode(k, REG, NewAttr(mode), |data|, 0, None);
      }
      ReplaceData(ino, data);
      return NS.Done;
    }

    // deleteDentry, decrementNlink, and the inode's rows when that was the last link.
    method DropDentry(k: Slot)
      requires k in dentries
      modifies this`dentries, this`inodes, this`chunks, this`symlinks
      ensures Rows() == Drop(old(Rows()), k)
    {
      var ino := dentries[k];
      dentries := dentries - {k};
      if ino in inodes {
        inodes := inodes[ino := inodes[ino].(nlink := inodes[ino].nlink + -1)];
        if inodes[ino].nlink == 0 {
          chunks := chunks - {ino};
          symlinks := symlinks - {ino};
          inodes := inodes - {ino};
        }
      }
    }

    method Unlink(path: string) returns (r: NS.Status)
      modifies this
      ensures (Rows(), r) == NS.Unlink(old(Rows()), Normalize(path))
    {
      NormalizeProper(path);
      r := UnlinkAt(Normalize(path));
    }

    method UnlinkAt(cs: Components) returns (r: NS.Status)
      requires Proper(cs)
      modifies this
      ensures (Rows(), r) == NS.Unlink(old(Rows()), cs)
    {
      if cs == [] { return NS.Failed(EPERM); }
      RenormalizeIsClean(cs[..|cs| - 1]);
      var parent := Find(ParentOf(cs));
      if parent.Err? { return NS.Failed(parent.errno); }
      var k := Slot(parent.value, NameOf(cs));
      if k !in dentries || dentries[k] !in inodes { return NS.Failed(ENOENT); }
      if IsDir(Rows(), dentries[k]) { return NS.Failed(EISDIR); }
      DropDentry(k);
      return NS.Done;
    }

    method Rmdir(path: string) returns (r: NS.Status)
      modifies this
      ensures (Rows(), r) == NS.Rmdir(old(Rows()), Normalize(path))
    {
      NormalizeProper(path);
      r := RmdirAt(Normalize(path));
    }

    method RmdirAt(cs: Components) returns (r: NS.Status)
      requires Proper(cs)
      modifies this
      ensures (Rows(), r) == NS.Rmdir(old(Rows()), cs)
    {
      if cs == [] { return NS.Failed(EPERM); }
      RenormalizeIsClean(cs[..|cs| - 1]);
      var parent := Find(ParentOf(cs));
      if parent.Err? { return NS.Failed(parent.errno); }
      var k := Slot(parent.value, NameOf(cs));
      if k !in dentries || dentries[k] !in inodes { return NS.Failed(ENOENT); }
      var ino := dentries[k];
      if !IsDir(Rows(), ino) { return NS.Failed(ENOTDIR); }
      if !IsEmptyDir(Rows(), ino) { return NS.Failed(ENOTEMPTY); }
      dentries := dentries - {k};
      inodes := inodes - {ino};
      return NS.Done;
    }

    method Rename(from: string, to: string) returns (r: NS.Status)
      modifies this
      ensures (Rows(), r) == NS.Rename(old(Rows()), Normalize(from), Normalize(to))
    {
      var oldPath, newPath := Normalize(from), Normalize(to);
      NormalizeProper(from);
      NormalizeProper(to);
      if oldPath == [] || newPath == [] { return NS.Failed(EPERM); }
      if |NameOf(newPath)| > MAX_NAME_LEN { return NS.Failed(ENAMETOOLONG); }
      if HasPrefix(ToPath(newPath), ToPath(oldPath) + "/") { return NS.Failed(EINVAL); }
      RenormalizeIsClean(oldPath[..|oldPath| - 1]);
      var oldParent := Find(ParentOf(oldPath));
      if oldParent.Err? { return NS.Failed(oldParent.errno); }
      var source := Slot(oldParent.value, NameOf(oldPath));
      if source !in dentries { return NS.Failed(ENOENT); }
      var ino := dentries[source];
      var newParent := ParentFor(newPath);
      if newParent.Err? { return NS.Failed(newParent.errno); }
      var dest := Slot(newParent.value, NameOf(newPath));
      r := ClearDestination(ino, dest, newPath);
      if r.Failed? { return; }
      if source in dentries {
        dentries := (dentries - {source})[dest := dentries[source]];
      }
    }

    method ClearDestination(ino: int, dest: Slot, newPath: Components) returns (r: NS.Status)
      requires Proper(newPath)
      modifies this
      ensures (Rows(), r) == NS.ClearDestination(old(Rows()), ino, dest, newPath)
    {
      if dest !in dentries { return NS.Done; }
      if dentries[dest] !in inodes || ino !in inodes { return NS.Failed(ENOENT); }
      var replacesDir, movesDir := IsDir(Rows(), dentries[dest]), IsDir(Rows(), ino);
      if replacesDir && !movesDir { return NS.Failed(EISDIR); }
      if !replacesDir && movesDir { return NS.Failed(ENOTDIR); }
      if replacesDir {
        r := RmdirAt(newPath);
      } else {
        r := UnlinkAt(newPath);
      }
    }

    method Link(existing: string, to: string) returns (r: NS.Status)
      modifies this
      ensures (Rows(), r) == NS.Link(old(Rows()), Normalize(existing), Normalize(to))
    {
      var newPath := Normalize(to);
      NormalizeProper(existing);
      NormalizeProper(to);
      if |NameOf(newPath)| > MAX_NAME_LEN { return NS.Failed(ENAMETOOLONG); }
      var source := Find(Normalize(existing));
      if source.Err? { return NS.Failed(source.errno); }
      if source.value !in inodes { return NS.Failed(ENOENT); }
      if IsDir(Rows(), source.value) { return NS.Failed(EPERM); }
      var parent := ParentFor(newPath);
      if parent.Err? { return NS.Failed(parent.errno); }
      var k := Slot(parent.value, NameOf(newPath));
      if k in dentries { return NS.Failed(EEXIST); }
      InsertDentry(k, source.value);
      return NS.Done;
    }

    method Symlink(target: string, path: string) returns (r: NS.Status)
      modifies this
      ensures (Rows(), r) == NS.Symlink(old(Rows()), target, Normalize(path))
    {
      var cs := Normalize(path);
      NormalizeProper(path);
      if |NameOf(cs)| > MAX_NAME_LEN { return NS.Failed(ENAMETOOLONG); }
      var parent := ParentFor(cs);
      if parent.Err? { return NS.Failed(parent.errno); }
      var k := Slot(parent.value, NameOf(cs));
      if k in dentries { return NS.Failed(EEXIST); }
      var _ := CreateInode(k, LNK, Attr(0x1ff, 0, 0), |target|, 0, Some(target));
      return NS.Done;
    }

    method Mknod(path: string, mode: int, rdev: int) returns (r: NS.Status)
      modifies this
      ensures (Rows(), r) == NS.Mknod(old(Rows()), Normalize(path), mode, rdev)
    {
      var cs := Normalize(path);
      NormalizeProper(path);
      if cs == [] { return NS.Failed(EPERM); }
      if |NameOf(cs)| > MAX_NAME_LEN { return NS.Failed(ENAMETOOLONG); }
      if TypeBits(mode) !in {FIFO, CHR, BLK, SOCK} { return NS.Failed(EINVAL); }
      RenormalizeIsClean(cs[..|cs| - 1]);
      var parent := Find(ParentOf(cs));
      if parent.Err? { return NS.Failed(parent.errno); }
      if !IsDir(Rows(), parent.value) { return NS.Failed(ENOTDIR); }
      var k := Slot(parent.value, NameOf(cs));
      if k in dentries { return NS.Failed(EEXIST); }
      var _ := CreateInode(k, TypeBits(mode), Attr(OtherBits(mode), 0, 0), 0, rdev, None);
      return NS.Done;
    }
  }
}
