// OverlayFS as it runs: the delta filesystem and the whiteout set are updated in place.
module OverlayClass {
  import opened Common
  import opened Paths
  import opened ChunkStore
  import opened Tables
  import opened Resolution
  import NS = Namespace
  import opened PlainView
  import Overlay
  import opened FilesystemClass

  class OverlayFS {
    const base: map<Components, Node>
    const delta: Filesystem
    var whiteouts: set<Components>

    constructor (base: map<Components, Node>, delta: Filesystem)
      ensures this.base == base && this.delta == delta && whiteouts == {}
    {
      this.base := base;
      this.delta := delta;
      whiteouts := {};
    }

    function Value(): Overlay.Layers
      reads this, delta
    {
      Overlay.Layers(base, delta.Rows(), whiteouts)
    }

    method RemoveWhiteout(p: Components)
      modifies this
      ensures Value() == Overlay.RemoveWhiteout(old(Value()), p)
    {
      if p !in whiteouts {
        assert whiteouts - {p} == whiteouts;
        return;
      }
      whiteouts := whiteouts - {p};
    }

    // Check the path from the top: each longer prefix is looked up in the set.
    method IsWhiteout(p: Components) returns (hidden: bool)
      ensures hidden == Overlay.IsWhiteout(whiteouts, p)
    {
      var i := 0;
      while i < |p|
        invariant 0 <= i <= |p|
        invariant !Overlay.IsWhiteout(whiteouts, p[..i])
      {
        assert p[..i + 1][..i] == p[..i];
        if p[..i + 1] in whiteouts {
          Overlay.WhiteoutExists(whiteouts, p);
          assert p[..i + 1] <= p;
          return true;
        }
        i := i + 1;
      }
      assert p[..i] == p;
      return false;
    }

    method LookupPath(p: Components) returns (r: Result<bool>)
      ensures r == Overlay.LookupPath(Value(), p)
    {
      if p == [] { return Ok(true); }
      var hidden := IsWhiteout(p);
      if hidden { return Err(ENOENT); }
      var at := Walk(delta.Rows(), ROOT, p);
      if at.Some? { return Ok(IsDir(delta.Rows(), at.value)); }
      if p in base { return Ok(base[p].Dir?); }
      return Err(ENOENT);
    }

    method Mkdir(p: Components, mode: int) returns (r: NS.Status)
      requires Clean(p)
      modifies this, delta
      ensures (Value(), r) == Overlay.Mkdir(old(Value()), p, mode)
    {
      RenormalizeIsClean(p);
      var wasWhiteout := IsWhiteout(p);
      RemoveWhiteout(p);
      if !wasWhiteout {
        var found := LookupPath(p);
        if found.Ok? { return NS.Failed(EEXIST); }
      } else {
        var found := delta.Find(p);
        if found.Ok? { return NS.Failed(EEXIST); }
      }
      r := delta.MkdirAt(p, mode);
    }

    // `stale` holds the paths whose inode-map record still points at a removed delta inode.
    method MkdirAll(p: Components, mode: int, stale: set<Components>) returns (r: NS.Status)
      requires Clean(p)
      modifies this, delta
      ensures (Value(), r) == Overlay.MkdirAll(old(Value()), p, mode, stale)
    {
      var i := 0;
      while i < |p|
        invariant 0 <= i <= |p|
        invariant Overlay.MkdirAllFrom(Value(), p, i, mode, stale) == Overlay.MkdirAll(old(Value()), p, mode, stale)
      {
        var current := p[..i + 1];
        var uncovered := current in whiteouts;
        RemoveWhiteout(current);
        var found := LookupPath(current);
        if uncovered && current in stale && Walk(delta.Rows(), ROOT, current).None? {
          found := Err(ENOENT);
        }
        match found {
          case Ok(isDir) =>
            if !isDir { return NS.Failed(ENOTDIR); }
          case Err(e) =>
            if e != ENOENT { return NS.Failed(e); }
            r := delta.MkdirAt(current, mode);
            if r.Failed? { return; }
        }
        i := i + 1;
      }
      return NS.Done;
    }

    method WriteFile(path: string, data: Bytes, mode: int, stale: set<Components>) returns (r: NS.Status)
      requires IsAbsolute(path)
      modifies this, delta
      ensures (Value(), r) == Overlay.WriteFile(old(Value()), Normalize(path), data, mode, stale)
    {
      var p := Normalize(path);
      NormalizeProper(path);
      RemoveWhiteout(p);
      if p != [] {
        ParentOfClean(p);
      }
      var parent := ParentOf(p);
      if parent != [] {
        var found := LookupPath(parent);
        match found {
          case Err(_) =>
            r := MkdirAll(parent, 0x1ed, stale);
            if r.Failed? { return; }
          case Ok(isDir) =>
            if !isDir { return NS.Failed(ENOTDIR); }
        }
      }
      r := delta.WriteFile(path, data, mode);
    }

    method Cover(p: Components)
      modifies this
      ensures Value() == Overlay.Cover(old(Value()), p)
    {
      if p in base {
        whiteouts := whiteouts + {p};
      }
    }

    method Unlink(p: Components) returns (r: NS.Status)
      requires Clean(p)
      modifies this, delta
      ensures (Value(), r) == Overlay.Unlink(old(Value()), p)
    {
      if p == [] { return NS.Failed(EPERM); }
      var found := LookupPath(p);
      if found.Err? { return NS.Failed(found.errno); }
      if found.value { return NS.Failed(EISDIR); }
      r := delta.UnlinkAt(p);
      if r.Failed? && r.errno != ENOENT { return; }
      Cover(p);
      return NS.Done;
    }

    method Rmdir(p: Components) returns (r: NS.Status)
      requires Clean(p)
      modifies this, delta
      ensures (Value(), r) == Overlay.Rmdir(old(Value()), p)
    {
      if p == [] { return NS.Failed(EPERM); }
      var found := LookupPath(p);
      if found.Err? { return NS.Failed(found.errno); }
      if !found.value { return NS.Failed(ENOTDIR); }
      if !Overlay.ListsNothing(Value(), p) { return NS.Failed(ENOTEMPTY); }
      r := delta.RmdirAt(p);
      if r.Failed? && r.errno != ENOENT { return; }
      Cover(p);
      return NS.Done;
    }

    // ensureParentDirs: walk down the delta, making the directories it does not have.
    method EnsureParentDirs(p: Components) returns (r: NS.Status)
      requires p != []
      modifies this, delta
      ensures (Value(), r) == Overlay.EnsureParentsFrom(old(Value()), p, 0)
    {
      var i := 0;
      while i + 1 < |p|
        invariant 0 <= i < |p|
        invariant Overlay.EnsureParentsFrom(Value(), p, i) == Overlay.EnsureParentsFrom(old(Value()), p, 0)
      {
        var current := p[..i + 1];
        RemoveWhiteout(current);
        var parent := Walk(delta.Rows(), ROOT, Overlay.Up(current));
        var at := Walk(delta.Rows(), ROOT, current);
        if parent.None? { return NS.Failed(ENOENT); }
        if at.Some? {
          if !IsDir(delta.Rows(), at.value) { return NS.Failed(ENOTDIR); }
        } else {
          var _ := delta.CreateInode(Slot(parent.value, NameOf(current)), DIR, NewAttr(0x1ed), 0, 0, None);
        }
        i := i + 1;
      }
      return NS.Done;
    }

    // copyUp of a regular file.
    method CopyUp(p: Components) returns (r: NS.Status)
      modifies this, delta
      ensures (Value(), r) == Overlay.CopyUp(old(Value()), p)
    {
      if p == [] { return NS.Failed(EPERM); }
      if Walk(delta.Rows(), ROOT, p).Some? { return NS.Done; }
      if p !in base || base[p].Dir? { return NS.Failed(ENOENT); }
      var file := base[p];
      r := EnsureParentDirs(p);
      if r.Failed? { return; }
      var parent := Walk(delta.Rows(), ROOT, Overlay.Up(p));
      if parent.None? { return NS.Failed(ENOENT); }
      var k := Slot(parent.value, NameOf(p));
      var ino := delta.CreateInode(k, REG, file.attr, |file.data|, 0, None);
      delta.ReplaceData(ino, file.data);
    }
  }
}
