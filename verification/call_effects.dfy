// The namespace calls one by one: when each succeeds, and all that it changes, told from the tables
// before it.
module CallEffects {
  import opened Common
  import opened Paths
  import opened ChunkStore
  import opened Tables
  import opened Resolution
  import opened Namespace
  import opened RenameTree
  import opened MadeParents
  import opened RenameExact
  import opened Effects

  // ---- Link, Symlink, Mknod, Mkdir, WriteFile ----

  lemma EntersLeads(t: State, v: State, path: Components, k: Slot, ino: int)
    requires Valid(v) && Proper(path) && path != [] && Wider(t, v)
    requires Lookup(t, ParentOf(path)) == Ok(k.parent) && k.name == NameOf(path) && IsDir(v, k.parent)
    requires EntryAt(v, k) == Some(ino)
    ensures Leads(v, path, ino)
  {
    ParentClean(path);
    RenormalizeIsClean(ParentOf(path));
    ResolveWider(t, v, ParentOf(path), true, MAX_SYMLINK_DEPTH);
    if Clean(path) {
      EntryFound(v, path, !IsLink(v, ino));
    }
  }

  lemma CreateEnters(t: State, path: Components, k: Slot, fileType: int, attr: Attr, size: int, rdev: int, target: Option<string>)
    requires Valid(t) && Proper(path) && IsDir(t, k.parent) && k !in t.dentries && (target.Some? <==> fileType == LNK)
    requires Lookup(t, ParentOf(path)) == Ok(k.parent) && k.name == NameOf(path)
    ensures var v := Create(t, k, fileType, attr, size, rdev, target);
      && Valid(v) && v.nextIno == t.nextIno + 1 && Wider(t, v)
      && Enters(t, v, k, t.nextIno, Row(Some(Inode(fileType, attr, 1, size, rdev)), None, target))
      && (path != [] ==> Leads(v, path, t.nextIno))
  {
    var v := Create(t, k, fileType, attr, size, rdev, target);
    CreateValid(t, k, fileType, attr, size, rdev, target);
    CreateWider(t, k, fileType, attr, size, rdev, target);
    NewRow(t, k, fileType, attr, size, rdev, target);
    if path != [] {
      EntersLeads(t, v, path, k, t.nextIno);
    }
  }

  lemma NewRow(t: State, k: Slot, fileType: int, attr: Attr, size: int, rdev: int, target: Option<string>)
    requires Valid(t) && k !in t.dentries
    ensures var v := Create(t, k, fileType, attr, size, rdev, target);
      Enters(t, v, k, t.nextIno, Row(Some(Inode(fileType, attr, 1, size, rdev)), None, target))
  {
    NoRowAtNext(t);
    assert RowAt(t, t.nextIno) == NoRow;
  }

  // The parent is there or made, and the slot is free.
  predicate CanEnter(s: State, path: Components) {
    !NameTooLong(path) && CanMake(s, ParentOf(path)) && NewSlot(s, path) !in s.dentries
  }

  // A call that adds an entry for a new inode with this row, below a parent that MkdirAll made.
  ghost predicate AddsNew(s: State, v: State, path: Components, row: Row) {
    exists t :: AddsNewTo(s, t, v, path, row)
  }

  ghost predicate AddsNewTo(s: State, t: State, v: State, path: Components, row: Row) {
    && Makes(s, t, ParentOf(path), 0x1ed) && Enters(t, v, NewSlot(s, path), t.nextIno, row)
    && v.nextIno == t.nextIno + 1 && (path != [] ==> Leads(v, path, t.nextIno))
  }

  // Symlink: an inode with the target as its row and its length as its size.
  lemma SymlinkExactly(s: State, target: string, path: Components)
    requires Valid(s) && Proper(path)
    ensures var (v, r) := Symlink(s, target, path);
      && (r.Done? <==> CanEnter(s, path))
      && (r.Done? ==> AddsNew(s, v, path, Row(Some(Inode(LNK, Attr(0x1ff, 0, 0), 1, |target|, 0)), None, Some(target))))
  {
    ParentLeaves(s, path);
    var t := MkdirAll(s, ParentOf(path), 0x1ed).0;
    var (v, r) := Symlink(s, target, path);
    if r.Done? {
      CreateEnters(t, path, NewSlot(s, path), LNK, Attr(0x1ff, 0, 0), |target|, 0, Some(target));
      assert AddsNewTo(s, t, v, path, Row(Some(Inode(LNK, Attr(0x1ff, 0, 0), 1, |target|, 0)), None, Some(target)));
    }
  }

  // The name is short, the parent a directory, the entry free.
  predicate CanEnterDirectly(s: State, path: Components) {
    && path != [] && !NameTooLong(path)
    && Lookup(s, ParentOf(path)).Ok? && IsDir(s, Lookup(s, ParentOf(path)).value) && EntrySlot(s, path) !in s.dentries
  }

  ghost predicate AddsNewDirectly(s: State, v: State, path: Components, row: Row) {
    Enters(s, v, EntrySlot(s, path), s.nextIno, row) && v.nextIno == s.nextIno + 1 && Leads(v, path, s.nextIno)
  }

  lemma MkdirExactly(s: State, path: Components, mode: int)
    requires Valid(s) && Proper(path)
    ensures var (v, r) := Mkdir(s, path, mode);
      && (r.Done? <==> CanEnterDirectly(s, path))
      && (if r.Done? then AddsNewDirectly(s, v, path, Row(Some(Inode(DIR, NewAttr(mode), 1, 0, 0)), None, None)) else v == s)
  {
    if Mkdir(s, path, mode).1.Done? {
      CreateEnters(s, path, EntrySlot(s, path), DIR, NewAttr(mode), 0, 0, None);
    }
  }

  // Mknod: only the four special types, with the mode bits as given and the device number.
  lemma MknodExactly(s: State, path: Components, mode: int, rdev: int)
    requires Valid(s) && Proper(path)
    ensures var (v, r) := Mknod(s, path, mode, rdev);
      && (r.Done? <==> CanEnterDirectly(s, path) && TypeBits(mode) in {FIFO, CHR, BLK, SOCK})
      && (if r.Done?
          then AddsNewDirectly(s, v, path, Row(Some(Inode(TypeBits(mode), Attr(OtherBits(mode), 0, 0), 1, 0, rdev)), None, None))
          else v == s)
  {
    if Mknod(s, path, mode, rdev).1.Done? {
      CreateEnters(s, path, EntrySlot(s, path), TypeBits(mode), Attr(OtherBits(mode), 0, 0), 0, rdev, None);
    }
  }

  predicate LinkGoes(s: State, existing: Components, path: Components) {
    Lookup(s, existing).Ok? && !IsDir(s, Lookup(s, existing).value) && CanEnter(s, path)
  }

  // The row of ino with so many links more.
  function Relinked(s: State, ino: int, delta: int): Row
    requires ino in s.inodes
  {
    RowAt(s, ino).(inode := Some(s.inodes[ino].(nlink := s.inodes[ino].nlink + delta)))
  }

  // v has one more entry for an inode of s; its row differs in the link count only.
  ghost predicate AddsLink(s: State, v: State, path: Components, ino: int) {
    exists t :: AddsLinkTo(s, t, v, path, ino)
  }

  ghost predicate AddsLinkTo(s: State, t: State, v: State, path: Components, ino: int) {
    && Makes(s, t, ParentOf(path), 0x1ed) && ino in s.inodes
    && Enters(t, v, NewSlot(s, path), ino, Relinked(s, ino, 1)) && v.nextIno == t.nextIno
    && (path != [] ==> Leads(v, path, ino))
  }

  lemma LookupLive(s: State, path: Components)
    requires Valid(s) && Proper(path) && Lookup(s, path).Ok?
    ensures Lookup(s, path).value in s.inodes && !IsLink(s, Lookup(s, path).value)
  {
    RenormalizeIsClean(path);
    ResolveLive(s, Renormalize(path), true, MAX_SYMLINK_DEPTH);
  }

  lemma AddLinkEnters(t: State, k: Slot, ino: int)
    requires k !in t.dentries && ino in t.inodes
    ensures var v := AddLink(t, k, ino); Enters(t, v, k, ino, Relinked(t, ino, 1)) && Wider(t, v) && v.nextIno == t.nextIno
  {
  }

  lemma MadeKeepsRow(s: State, t: State, path: Components, mode: int, ino: int)
    requires Valid(s) && Makes(s, t, path, mode) && ino in s.inodes
    ensures RowAt(t, ino) == RowAt(s, ino) && ino in t.inodes && t.inodes[ino] == s.inodes[ino]
  {
    assert InodeValid(s, ino);
    assert RowAt(t, ino).inode == RowAt(s, ino).inode;
  }

  lemma AddLinkAdds(s: State, t: State, path: Components, ino: int)
    requires Valid(s) && Valid(t) && Proper(path) && Makes(s, t, ParentOf(path), 0x1ed)
    requires ino in s.inodes && !IsDir(s, ino) && NewSlot(s, path) !in t.dentries
    requires Lookup(t, ParentOf(path)) == Ok(NewSlot(s, path).parent) && IsDir(t, NewSlot(s, path).parent)
    ensures AddsLink(s, AddLink(t, NewSlot(s, path), ino), path, ino)
  {
    var k := NewSlot(s, path);
    MadeKeepsRow(s, t, ParentOf(path), 0x1ed, ino);
    AddLinkEnters(t, k, ino);
    AddLinkLeads(t, path, k, ino);
    assert Relinked(t, ino, 1) == Relinked(s, ino, 1);
    assert AddsLinkTo(s, t, AddLink(t, k, ino), path, ino);
  }

  lemma AddLinkLeads(t: State, path: Components, k: Slot, ino: int)
    requires Valid(t) && Proper(path) && Lookup(t, ParentOf(path)) == Ok(k.parent) && k.name == NameOf(path)
    requires IsDir(t, k.parent) && k !in t.dentries && ino in t.inodes && !IsDir(t, ino)
    ensures path != [] ==> Leads(AddLink(t, k, ino), path, ino)
  {
    var v := AddLink(t, k, ino);
    AddLinkValid(t, k, ino);
    AddLinkEnters(t, k, ino);
    assert IsDir(v, k.parent);
    if path != [] {
      EntersLeads(t, v, path, k, ino);
    }
  }

  // Link: the new entry names the inode the existing path leads to, which has one link more.
  lemma LinkExactly(s: State, existing: Components, path: Components)
    requires Valid(s) && Proper(existing) && Proper(path)
    ensures var (v, r) := Link(s, existing, path);
      && (r.Done? <==> LinkGoes(s, existing, path))
      && (r.Done? ==> AddsLink(s, v, path, Lookup(s, existing).value))
  {
    ParentLeaves(s, path);
    if Lookup(s, existing).Ok? {
      LookupLive(s, existing);
    }
    if Link(s, existing, path).1.Done? {
      AddLinkAdds(s, MkdirAll(s, ParentOf(path), 0x1ed).0, path, Lookup(s, existing).value);
    }
  }

  // ---- WriteFile ----

  // The rows are the data cut into chunks: every chunk there and of its due length.
  ghost predicate Holds(cs: Positive, rows: Option<map<nat, Bytes>>, data: Bytes) {
    && rows.Some?
    && var f := Blob(rows.value, |data|); Dense(cs, f) && Contents(cs, f) == data && AllRows(f.chunks) == data
  }

  // Nothing differs but the data and the size of one inode.
  ghost predicate Overwrites(s: State, v: State, ino: int, data: Bytes) {
    && EntriesBut(s, v, {}) && RowsBut(s, v, {ino}) && v.nextIno == s.nextIno && ino in s.inodes
    && RowAt(v, ino).inode == Some(s.inodes[ino].(size := |data|)) && RowAt(v, ino).target == RowAt(s, ino).target
    && Holds(s.chunkSize, RowAt(v, ino).data, data)
  }

  ghost predicate AddsFile(s: State, v: State, path: Components, data: Bytes, mode: int) {
    exists rows :: Holds(s.chunkSize, Some(rows), data)
      && AddsNew(s, v, path, Row(Some(Inode(REG, NewAttr(mode), 1, |data|, 0)), Some(rows), None))
  }

  predicate WriteGoes(s: State, path: Components) {
    && !NameTooLong(path) && CanMake(s, ParentOf(path))
    && (NewSlot(s, path) in s.dentries ==> !IsDir(s, s.dentries[NewSlot(s, path)]))
  }

  lemma PutOverwrites(s: State, ino: int, data: Bytes)
    requires ino in s.inodes
    ensures Overwrites(s, PutData(s, ino, data), ino, data)
  {
    CutIsDense(s.chunkSize, data);
  }

  lemma PutEnters(t: State, u: State, k: Slot, ino: int, inode: Inode, data: Bytes)
    requires Enters(t, u, k, ino, Row(Some(inode), None, None)) && inode.size == |data|
    ensures ino in u.inodes
    ensures var v := PutData(u, ino, data);
      Enters(t, v, k, ino, Row(Some(inode), Some(Cut(t.chunkSize, data)), None)) && Wider(u, v) && v.nextIno == u.nextIno
  {
    assert RowAt(u, ino).inode == Some(inode);
  }

  lemma PutAdds(s: State, t: State, path: Components, data: Bytes, mode: int)
    requires Valid(s) && Valid(t) && Proper(path) && Makes(s, t, ParentOf(path), 0x1ed) && NewSlot(s, path) !in t.dentries
    requires Lookup(t, ParentOf(path)) == Ok(NewSlot(s, path).parent) && IsDir(t, NewSlot(s, path).parent)
    ensures AddsFile(s, PutData(Create(t, NewSlot(s, path), REG, NewAttr(mode), |data|, 0, None), t.nextIno, data), path, data, mode)
  {
    var k, inode := NewSlot(s, path), Inode(REG, NewAttr(mode), 1, |data|, 0);
    CreateEnters(t, path, k, REG, NewAttr(mode), |data|, 0, None);
    var u := Create(t, k, REG, NewAttr(mode), |data|, 0, None);
    PutEnters(t, u, k, t.nextIno, inode, data);
    PutDataValid(u, t.nextIno, data);
    PutLeads(t, u, path, k, data);
    CutIsDense(t.chunkSize, data);
    assert AddsNewTo(s, t, PutData(u, t.nextIno, data), path, Row(Some(inode), Some(Cut(t.chunkSize, data)), None));
  }

  lemma PutLeads(t: State, u: State, path: Components, k: Slot, data: Bytes)
    requires Proper(path) && Wider(t, u) && Lookup(t, ParentOf(path)) == Ok(k.parent) && k.name == NameOf(path)
    requires IsDir(t, k.parent) && EntryAt(u, k) == Some(t.nextIno) && t.nextIno in u.inodes
    requires Valid(PutData(u, t.nextIno, data))
    ensures path != [] ==> Leads(PutData(u, t.nextIno, data), path, t.nextIno)
  {
    var v := PutData(u, t.nextIno, data);
    assert Wider(t, v);
    if path != [] {
      EntersLeads(t, v, path, k, t.nextIno);
    }
  }

  // WriteFile: into the inode that the entry names, whatever other names it has, or into a new one.
  lemma WriteFileExactly(s: State, path: Components, data: Bytes, mode: int)
    requires Valid(s) && Proper(path)
    ensures var (v, r) := WriteFile(s, path, data, mode); var k := NewSlot(s, path);
      && (r.Done? <==> WriteGoes(s, path))
      && (r.Done? ==> if k in s.dentries then Overwrites(s, v, s.dentries[k], data) else AddsFile(s, v, path, data, mode))
  {
    ParentLeaves(s, path);
    var t, k := MkdirAll(s, ParentOf(path), 0x1ed).0, NewSlot(s, path);
    if CanMake(s, ParentOf(path)) && !NameTooLong(path) {
      if k in s.dentries {
        SlotsOfNew(s, path);
        assert SlotValid(s, k);
        assert t == s;
        PutOverwrites(s, s.dentries[k], data);
      } else {
        assert WriteFile(s, path, data, mode) ==
          (PutData(Create(t, k, REG, NewAttr(mode), |data|, 0, None), t.nextIno, data), Done);
        PutAdds(s, t, path, data, mode);
      }
    }
  }

  // ---- Unlink and Rmdir ----

  // The entry k is gone. Its inode goes with all its rows if that was its last name, else it has one
  // link less; nothing else differs.
  ghost predicate Loses(s: State, v: State, k: Slot)
    requires k in s.dentries && s.dentries[k] in s.inodes
  {
    var ino := s.dentries[k];
    && EntryAt(v, k).None? && EntriesBut(s, v, {k}) && RowsBut(s, v, {ino}) && v.nextIno == s.nextIno
    && RowAt(v, ino) == if Links(s, ino) == {k} then NoRow else Relinked(s, ino, -1)
  }

  lemma DropLoses(s: State, k: Slot)
    requires Valid(s) && k in s.dentries
    ensures s.dentries[k] in s.inodes && Loses(s, Drop(s, k), k)
  {
    var ino := s.dentries[k];
    assert SlotValid(s, k) && InodeValid(s, ino);
    DropCounts(s, k);
    assert k in Links(s, ino);
    assert Links(s, ino) - {k} == {} <==> Links(s, ino) == {k};
    DropRow(s, k);
  }

  lemma DropRow(s: State, k: Slot)
    requires k in s.dentries && s.dentries[k] in s.inodes
    ensures var v, ino := Drop(s, k), s.dentries[k];
      && EntriesBut(s, v, {k}) && RowsBut(s, v, {ino})
      && RowAt(v, ino) == if ino in v.inodes then Relinked(s, ino, -1) else NoRow
  {
  }

  // Unlink: the entry must be there and name no directory.
  lemma UnlinkExactly(s: State, path: Components)
    requires Valid(s)
    ensures var (v, r) := Unlink(s, path); var k := EntrySlot(s, path);
      && (r.Done? <==> HasEntry(s, path) && !IsDir(s, s.dentries[k]))
      && (if r.Done? then s.dentries[k] in s.inodes && Loses(s, v, k) else v == s)
  {
    if HasEntry(s, path) {
      assert SlotValid(s, EntrySlot(s, path));
      DropLoses(s, EntrySlot(s, path));
    }
  }

  // Rmdir: the entry must name an empty directory, which goes with its only name.
  lemma RmdirExactly(s: State, path: Components)
    requires Valid(s)
    ensures var (v, r) := Rmdir(s, path); var k := EntrySlot(s, path);
      && (r.Done? <==> HasEntry(s, path) && IsDir(s, s.dentries[k]) && IsEmptyDir(s, s.dentries[k]))
      && (if r.Done? then Loses(s, v, k) && RowAt(v, s.dentries[k]) == NoRow else v == s)
  {
    if HasEntry(s, path) {
      var k := EntrySlot(s, path);
      assert SlotValid(s, k);
      if IsDir(s, s.dentries[k]) {
        RemoveDirIsDrop(s, k);
        DropLoses(s, k);
      }
    }
  }

  // ---- Rename ----

  // Between t and v the entry at `from` has gone over to `to`, where it replaced what was there: that
  // lost a name. No other entry and no other row differs, so the inode moved keeps its data.
  ghost predicate Moves(t: State, v: State, from: Slot, to: Slot)
    requires from in t.dentries && (to in t.dentries ==> t.dentries[to] in t.inodes)
  {
    && EntryAt(v, from).None? && EntriesBut(t, v, {from, to}) && v.nextIno == t.nextIno
    && (from != to ==> EntryAt(v, to) == Some(t.dentries[from]))
    && (if to in t.dentries then
          var gone := t.dentries[to];
          && RowsBut(t, v, {gone})
          && RowAt(v, gone) == if Links(t, gone) == {to} then NoRow else Relinked(t, gone, -1)
        else RowsBut(t, v, {}))
  }

  ghost predicate Renames(s: State, t: State, v: State, from: Slot, to: Slot, parent: Components) {
    && Makes(s, t, parent, 0x1ed) && EntryAt(t, from) == EntryAt(s, from) && EntryAt(t, to) == EntryAt(s, to)
    && from in t.dentries && (to in t.dentries ==> t.dentries[to] in t.inodes)
    && Moves(t, v, from, to)
  }

  lemma MoveMoves(t: State, from: Slot, to: Slot)
    requires Valid(t) && from in t.dentries
    ensures to in t.dentries ==> t.dentries[to] in t.inodes
    ensures Moves(t, Move(if to in t.dentries then Drop(t, to) else t, from, to), from, to)
  {
    if to in t.dentries {
      DropLoses(t, to);
      MovedRows(Drop(t, to), from, to);
    } else {
      MovedRows(t, from, to);
    }
  }

  lemma MovedRows(u: State, from: Slot, to: Slot)
    ensures var v := Move(u, from, to);
      && RowsBut(u, v, {}) && EntriesBut(u, v, {from, to}) && v.nextIno == u.nextIno
      && (to !in u.dentries ==> EntryAt(v, from).None?) && (from in u.dentries ==> EntryAt(v, to) == Some(u.dentries[from]))
  {
  }

  // Rename, for all paths: with the parent of the new path made, the entry is at its new slot, and
  // only what it replaced there has lost a name.
  lemma RenameExactly(s: State, oldPath: Components, newPath: Components)
    requires Valid(s) && Proper(oldPath) && Proper(newPath)
    ensures var (v, r) := Rename(s, oldPath, newPath); var t := MkdirAll(s, ParentOf(newPath), 0x1ed).0;
      && (r.Done? <==> RenameGoes(s, oldPath, newPath))
      && (r.Done? ==> Renames(s, t, v, EntrySlot(s, oldPath), NewSlot(s, newPath), ParentOf(newPath)))
  {
    RenameSucceedsExactly(s, oldPath, newPath);
    ParentLeaves(s, newPath);
    if Rename(s, oldPath, newPath).1.Done? {
      var t, u, from, to := RenameParts(s, oldPath, newPath);
      MoveMoves(t, from, to);
    }
  }

  // So every inode but a replaced one has the row it had.
  lemma RenameKeepsRows(s: State, oldPath: Components, newPath: Components, ino: int)
    requires Valid(s) && Proper(oldPath) && Proper(newPath) && Rename(s, oldPath, newPath).1.Done?
    requires ino in s.inodes && EntryAt(s, NewSlot(s, newPath)) != Some(ino)
    ensures RowAt(Rename(s, oldPath, newPath).0, ino) == RowAt(s, ino)
  {
    RenameExactly(s, oldPath, newPath);
    MadeKeepsRow(s, MkdirAll(s, ParentOf(newPath), 0x1ed).0, ParentOf(newPath), 0x1ed, ino);
  }

  // ---- Calls that fail ----

  // Nothing has changed, or only directories above the path have been made.
  ghost predicate FailsCleanly(s: State, v: State, path: Components) {
    v == s || Makes(s, v, ParentOf(path), 0x1ed)
  }

  lemma FailedWriteLeaves(s: State, path: Components, data: Bytes, mode: int)
    requires Valid(s) && Proper(path) && WriteFile(s, path, data, mode).1.Failed?
    ensures FailsCleanly(s, WriteFile(s, path, data, mode).0, path)
  {
    ParentLeaves(s, path);
  }

  lemma FailedLinkLeaves(s: State, existing: Components, path: Components)
    requires Valid(s) && Proper(path) && Link(s, existing, path).1.Failed?
    ensures FailsCleanly(s, Link(s, existing, path).0, path)
  {
    ParentLeaves(s, path);
  }

  lemma FailedSymlinkLeaves(s: State, target: string, path: Components)
    requires Valid(s) && Proper(path) && Symlink(s, target, path).1.Failed?
    ensures FailsCleanly(s, Symlink(s, target, path).0, path)
  {
    ParentLeaves(s, path);
  }

  lemma FailedRenameLeaves(s: State, oldPath: Components, newPath: Components)
    requires Valid(s) && Proper(newPath) && Rename(s, oldPath, newPath).1.Failed?
    ensures FailsCleanly(s, Rename(s, oldPath, newPath).0, newPath)
  {
    ParentLeaves(s, newPath);
    PlanStage(s, oldPath, newPath);
  }

  // ---- Calls that only add ----

  lemma WiderTwice(s: State, t: State, v: State)
    requires Wider(s, t) && Wider(t, v)
    ensures Wider(s, v)
  {
  }

  lemma CreateWider(t: State, k: Slot, fileType: int, attr: Attr, size: int, rdev: int, target: Option<string>)
    requires Valid(t) && k !in t.dentries
    ensures Wider(t, Create(t, k, fileType, attr, size, rdev, target))
  {
    FreshIno(t);
    assert t.nextIno !in t.symlinks;
  }

  lemma MkdirWider(s: State, path: Components, mode: int)
    requires Valid(s)
    ensures Wider(s, Mkdir(s, path, mode).0)
  {
    if Mkdir(s, path, mode).1.Done? {
      CreateWider(s, Slot(Lookup(s, ParentOf(path)).value, NameOf(path)), DIR, NewAttr(mode), 0, 0, None);
    }
  }

  lemma MknodWider(s: State, path: Components, mode: int, rdev: int)
    requires Valid(s)
    ensures Wider(s, Mknod(s, path, mode, rdev).0)
  {
    var (v, r) := Mknod(s, path, mode, rdev);
    if r.Done? {
      var k := EntrySlot(s, path);
      CreateWider(s, k, TypeBits(mode), Attr(OtherBits(mode), 0, 0), 0, rdev, None);
      assert v == Create(s, k, TypeBits(mode), Attr(OtherBits(mode), 0, 0), 0, rdev, None);
    } else {
      assert v == s;
    }
  }

  lemma {:induction false} MkdirAllWider(s: State, path: Components, i: nat, mode: int)
    requires Valid(s) && i <= |path|
    ensures Wider(s, MkdirAllFrom(s, path, i, mode).0)
    decreases |path| - i
  {
    if i < |path| {
      var x := Renormalize(path[..i + 1]);
      var t := EnsureDir(s, x, mode).0;
      MkdirWider(s, x, mode);
      EnsureDirKeeps(s, x, mode);
      if EnsureDir(s, x, mode).1.Done? {
        MkdirAllWider(t, path, i + 1, mode);
        WiderTwice(s, t, MkdirAllFrom(t, path, i + 1, mode).0);
      }
    }
  }

  lemma WriteWider(s: State, path: Components, data: Bytes, mode: int)
    requires Valid(s)
    ensures Wider(s, WriteFile(s, path, data, mode).0)
  {
    var (t, made) := MkdirAll(s, ParentOf(path), 0x1ed);
    MkdirAllWider(s, ParentOf(path), 0, 0x1ed);
    MkdirAllFromKeeps(s, ParentOf(path), 0, 0x1ed);
    if WriteFile(s, path, data, mode).1.Done? {
      var k := Slot(Lookup(t, ParentOf(path)).value, NameOf(path));
      if k !in t.dentries {
        CreateWider(t, k, REG, NewAttr(mode), |data|, 0, None);
      }
      WiderTwice(s, t, WriteFile(s, path, data, mode).0);
    }
  }

  lemma LinkWider(s: State, existing: Components, path: Components)
    requires Valid(s)
    ensures Wider(s, Link(s, existing, path).0)
  {
    var t := MkdirAll(s, ParentOf(path), 0x1ed).0;
    var (v, r) := Link(s, existing, path);
    MkdirAllWider(s, ParentOf(path), 0, 0x1ed);
    if r.Done? {
      var k, ino := Slot(Lookup(t, ParentOf(path)).value, NameOf(path)), Lookup(s, existing).value;
      assert v == AddLink(t, k, ino);
      AddLinkEnters(t, k, ino);
      WiderTwice(s, t, v);
    } else {
      assert v == s || v == t;
    }
  }

  lemma SymlinkWider(s: State, target: string, path: Components)
    requires Valid(s)
    ensures Wider(s, Symlink(s, target, path).0)
  {
    var t := MkdirAll(s, ParentOf(path), 0x1ed).0;
    MkdirAllWider(s, ParentOf(path), 0, 0x1ed);
    MkdirAllFromKeeps(s, ParentOf(path), 0, 0x1ed);
    if Symlink(s, target, path).1.Done? {
      CreateWider(t, Slot(Lookup(t, ParentOf(path)).value, NameOf(path)), LNK, Attr(0x1ff, 0, 0), |target|, 0, Some(target));
      WiderTwice(s, t, Symlink(s, target, path).0);
    }
  }

  // Whatever call but a removal or a rename, and however it ends: every path that led somewhere,
  // through symlinks too, still leads there.
  lemma AddingKeepsPaths(s: State, op: Op, cs: Components, followLast: bool)
    requires Valid(s) && !op.OpUnlink? && !op.OpRmdir? && !op.OpRename?
    requires Resolve(s, cs, followLast, MAX_SYMLINK_DEPTH).Ok?
    ensures Resolve(Call(s, op).0, cs, followLast, MAX_SYMLINK_DEPTH) == Resolve(s, cs, followLast, MAX_SYMLINK_DEPTH)
  {
    CallWider(s, op);
    ResolveWider(s, Call(s, op).0, cs, followLast, MAX_SYMLINK_DEPTH);
  }

  lemma CallWider(s: State, op: Op)
    requires Valid(s) && !op.OpUnlink? && !op.OpRmdir? && !op.OpRename?
    ensures Wider(s, Call(s, op).0)
  {
    match op
    case OpMkdir(p, mode) => MkdirWider(s, Normalize(p), mode);
    case OpMkdirAll(p, mode) => MkdirAllWider(s, Normalize(p), 0, mode);
    case OpWriteFile(p, data, mode) => WriteWider(s, Normalize(p), data, mode);
    case OpLink(p, q) => LinkWider(s, Normalize(p), Normalize(q));
    case OpSymlink(target, p) => SymlinkWider(s, target, Normalize(p));
    case OpMknod(p, mode, rdev) => MknodWider(s, Normalize(p), mode, rdev);
  }
}
