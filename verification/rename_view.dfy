// Rename on a tree of directories and files.
module RenameView {
  import opened Common
  import opened Paths
  import opened ChunkStore
  import opened Tables
  import opened Resolution
  import opened Namespace
  import opened RenamePaths
  import opened MadeParents
  import opened RenameExact
  import opened PlainView
  import opened Effects
  import CE = CallEffects

  ghost predicate NoneBelow(s: State, path: Components) {
    forall n :: View(s, path + [n]).None?
  }

  // What may be at the new path: nothing, a file for a file, or an empty directory for a directory.
  ghost predicate Replaceable(s: State, oldPath: Components, newPath: Components) {
    View(s, newPath).Some? ==>
      && (View(s, newPath) == Some(Dir) <==> View(s, oldPath) == Some(Dir))
      && (View(s, newPath) == Some(Dir) ==> NoneBelow(s, newPath))
  }

  ghost predicate MovesOnTree(s: State, oldPath: Components, newPath: Components) {
    && oldPath != [] && newPath != [] && !NameTooLong(newPath) && !StrictPrefix(oldPath, newPath)
    && View(s, oldPath).Some? && AllFit(s, ParentOf(newPath), 0, |ParentOf(newPath)|)
    && Replaceable(s, oldPath, newPath)
  }

  // The tree with the subtree at oldPath put at newPath, and the directories above newPath made.
  ghost function Moved(s: State, oldPath: Components, newPath: Components, q: Components): Option<Node> {
    if newPath <= q then View(s, oldPath + q[|newPath|..])
    else if oldPath <= q then None
    else if q <= newPath then Some(Dir)
    else View(s, q)
  }

  // ---- Success ----

  lemma EntryView(s: State, path: Components)
    requires Plain(s) && Clean(path) && path != []
    ensures HasEntry(s, path) <==> View(s, path).Some?
    ensures HasEntry(s, path) ==> Walk(s, ROOT, path) == Some(s.dentries[EntrySlot(s, path)])
  {
    ParentOfClean(path);
    LookupView(s, ParentOf(path));
    ViewExists(s, path);
    WalkSnoc(s, ROOT, ParentOf(path), NameOf(path));
  }

  lemma CanMakeView(s: State, path: Components)
    requires Plain(s) && Clean(path)
    ensures CanMake(s, path) <==> AllFit(s, path, 0, |path|)
  {
    ParentMadeExactly(s, path, 0x1ed);
    ViewExists(s, []);
    assert path[..0] == [];
    MkdirAllFits(s, path, 0, 0x1ed);
  }

  lemma DestinationView(s: State, oldPath: Components, newPath: Components)
    requires Plain(s) && Clean(oldPath) && Clean(newPath) && oldPath != [] && newPath != []
    requires HasEntry(s, oldPath) && CanMake(s, ParentOf(newPath))
    ensures (FoundDepth(s, ParentOf(newPath)) == |ParentOf(newPath)| ==>
               DestinationFree(s, s.dentries[EntrySlot(s, oldPath)], Slot(Anchor(s, ParentOf(newPath)), NameOf(newPath))))
            <==> Replaceable(s, oldPath, newPath)
  {
    var parent := ParentOf(newPath);
    ParentOfClean(newPath);
    FoundMeans(s, parent);
    assert parent[..|parent|] == parent;
    EntryView(s, oldPath);
    EntryView(s, newPath);
    ViewExists(s, oldPath);
    ViewExists(s, newPath);
    if HasEntry(s, newPath) {
      EmptyView(s, newPath);
    }
  }

  lemma RenameGoesView(s: State, oldPath: Components, newPath: Components)
    requires Plain(s) && Clean(oldPath) && Clean(newPath)
    ensures Rename(s, oldPath, newPath).1.Done? <==> MovesOnTree(s, oldPath, newPath)
  {
    RenameSucceedsExactly(s, oldPath, newPath);
    if oldPath != [] && newPath != [] {
      ParentClean(newPath);
      EntryView(s, oldPath);
      CanMakeView(s, ParentOf(newPath));
      if HasEntry(s, oldPath) && CanMake(s, ParentOf(newPath)) {
        DestinationView(s, oldPath, newPath);
      }
    }
  }

  // ---- The tree afterwards ----

  lemma NoneReplaced(s: State, newPath: Components, q: Components, ino: int)
    requires Plain(s) && Clean(newPath) && newPath != [] && Walk(s, ROOT, q) == Some(ino) && q != newPath
    ensures EntryAt(s, NewSlot(s, newPath)) != Some(ino)
  {
    var k, parent := NewSlot(s, newPath), ParentOf(newPath);
    if EntryAt(s, k) == Some(ino) {
      assert SlotValid(s, k) && InodeValid(s, k.parent);
      ParentOfClean(newPath);
      FoundMeans(s, parent);
      assert parent[..|parent|] == parent;
      LookupView(s, parent);
      WalkSnoc(s, ROOT, parent, NameOf(newPath));
      PathUnique(s, q, newPath);
      assert false;
    }
  }

  lemma NodeKept(s: State, oldPath: Components, newPath: Components, q: Components, r: Components)
    requires Plain(s) && Clean(oldPath) && Clean(newPath) && newPath != [] && Rename(s, oldPath, newPath).1.Done?
    requires Walk(s, ROOT, q).Some? && q != newPath && Walk(Rename(s, oldPath, newPath).0, ROOT, r) == Walk(s, ROOT, q)
    ensures View(Rename(s, oldPath, newPath).0, r) == View(s, q)
  {
    var ino, v := Walk(s, ROOT, q).value, Rename(s, oldPath, newPath).0;
    WalkLive(s, ROOT, q);
    NoneReplaced(s, newPath, q, ino);
    CE.RenameKeepsRows(s, oldPath, newPath, ino);
    assert RowAt(v, ino).inode == RowAt(s, ino).inode && RowAt(v, ino).data == RowAt(s, ino).data;
  }

  lemma PlainAfter(s: State, oldPath: Components, newPath: Components)
    requires Plain(s) && Clean(oldPath) && Clean(newPath) && Rename(s, oldPath, newPath).1.Done?
    ensures Plain(Rename(s, oldPath, newPath).0)
  {
    var v, t, to := Rename(s, oldPath, newPath).0, MkdirAll(s, ParentOf(newPath), 0x1ed).0, NewSlot(s, newPath);
    RenameValid(s, oldPath, newPath);
    CE.RenameExactly(s, oldPath, newPath);
    ParentClean(newPath);
    MkdirAllLaw(s, ParentOf(newPath), 0x1ed);
    if to in t.dentries {
      OneName(t, to);
      assert RowAt(v, t.dentries[to]) == NoRow;
    }
    forall i | i in v.inodes
      ensures PlainInode(v, i)
    {
      assert RowAt(v, i) == RowAt(t, i);
      assert PlainInode(t, i);
    }
  }

  lemma OneName(t: State, k: Slot)
    requires Plain(t) && k in t.dentries
    ensures Links(t, t.dentries[k]) == {k}
  {
    var ino := t.dentries[k];
    assert SlotValid(t, k) && InodeValid(t, ino) && PlainInode(t, ino);
    forall j | j in Links(t, ino)
      ensures j == k
    {
      OneElement(Links(t, ino), j, k);
    }
  }

  lemma MovedAt(s: State, oldPath: Components, newPath: Components, q: Components)
    requires Plain(s) && Clean(oldPath) && Clean(newPath) && oldPath != newPath && Rename(s, oldPath, newPath).1.Done?
    ensures View(Rename(s, oldPath, newPath).0, q) == Moved(s, oldPath, newPath, q)
  {
    var v := Rename(s, oldPath, newPath).0;
    RenameGoesView(s, oldPath, newPath);
    PlainAfter(s, oldPath, newPath);
    ParentClean(newPath);
    ParentClean(oldPath);
    NoLinks(s, ParentOf(oldPath));
    NoLinks(s, ParentOf(newPath));
    RenameMovesSubtree(s, oldPath, newPath, q);
    ViewExists(v, q);
    ViewExists(s, q);
    if newPath <= q {
      var r := oldPath + q[|newPath|..];
      ViewExists(s, r);
      if Walk(s, ROOT, r).Some? {
        assert r == newPath ==> oldPath <= newPath;
        NodeKept(s, oldPath, newPath, r, q);
      }
    } else if !(oldPath <= q) {
      if q <= newPath {
        AboveNew(s, oldPath, newPath, q);
      } else if Walk(s, ROOT, q).Some? {
        NodeKept(s, oldPath, newPath, q, q);
      } else {
        ParentOfClean(newPath);
      }
    }
  }

  lemma AboveNew(s: State, oldPath: Components, newPath: Components, q: Components)
    requires Plain(s) && Clean(oldPath) && Clean(newPath) && oldPath != newPath && Rename(s, oldPath, newPath).1.Done?
    requires q <= newPath && q != newPath
    ensures View(Rename(s, oldPath, newPath).0, q) == Some(Dir)
  {
    var v := Rename(s, oldPath, newPath).0;
    RenameGoesView(s, oldPath, newPath);
    PlainAfter(s, oldPath, newPath);
    ParentClean(newPath);
    ParentClean(oldPath);
    NoLinks(s, ParentOf(oldPath));
    NoLinks(s, ParentOf(newPath));
    RenameMovesSubtree(s, oldPath, newPath, newPath);
    assert oldPath + newPath[|newPath|..] == oldPath;
    ViewExists(s, oldPath);
    ViewExists(v, newPath);
    ViewParent(v, q, newPath);
  }

  // Rename succeeds exactly when the old path is there, the new one is not below it, the directories
  // above the new one are there or can be made, and what is at the new one can be replaced. The
  // subtree is then at the new path, with all its data, and nothing else has changed.
  lemma RenameLaw(s: State, oldPath: Components, newPath: Components)
    requires Plain(s) && Clean(oldPath) && Clean(newPath) && oldPath != newPath
    ensures var (v, r) := Rename(s, oldPath, newPath);
      && Plain(v)
      && (r.Done? <==> MovesOnTree(s, oldPath, newPath))
      && (r.Done? ==> forall q :: View(v, q) == Moved(s, oldPath, newPath, q))
      && (r.Failed? ==> DirsAdded(s, v, ParentOf(newPath)))
  {
    RenameGoesView(s, oldPath, newPath);
    if Rename(s, oldPath, newPath).1.Done? {
      PlainAfter(s, oldPath, newPath);
      forall q
        ensures View(Rename(s, oldPath, newPath).0, q) == Moved(s, oldPath, newPath, q)
      {
        MovedAt(s, oldPath, newPath, q);
      }
    } else {
      FailedRename(s, oldPath, newPath);
    }
  }

  lemma FailedRename(s: State, oldPath: Components, newPath: Components)
    requires Plain(s) && Clean(newPath) && Rename(s, oldPath, newPath).1.Failed?
    ensures var v := Rename(s, oldPath, newPath).0; Plain(v) && DirsAdded(s, v, ParentOf(newPath))
  {
    ParentClean(newPath);
    MkdirAllLaw(s, ParentOf(newPath), 0x1ed);
    PlanStage(s, oldPath, newPath);
  }
}
