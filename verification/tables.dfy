// The tables of the filesystem database, the invariant they keep, and the row
// updates every namespace operation is made of.
module Tables {
  import opened Common
  import opened Paths
  import opened ChunkStore

  const ROOT := 1
  const MAX_NAME_LEN := 255

  // File types as (mode & S_IFMT) / 0o10000.
  const FIFO := 1
  const CHR := 2
  const DIR := 4
  const BLK := 6
  const REG := 8
  const LNK := 10
  const SOCK := 12

  // A mode word, split into (mode & S_IFMT) / 0o10000 and the remaining bits; floor
  // division and modulo agree with the mask on negative words too.
  function TypeBits(mode: int): int {
    mode / 0x1000 % 16
  }

  function OtherBits(mode: int): int {
    mode - TypeBits(mode) * 0x1000
  }

  // mode & 0o777
  function PermissionBits(mode: int): int {
    mode % 0x200
  }

  datatype Errno = ENOENT | EEXIST | ENOTDIR | EISDIR | EINVAL | ELOOP | ENOTEMPTY | EPERM | ENAMETOOLONG | ESQL

  datatype Result<+T> = Ok(value: T) | Err(errno: Errno)

  // Everything else in the mode column, and the owner.
  datatype Attr = Attr(bits: int, uid: int, gid: int)

  // A new inode's attributes: mode & 0o777, owned by 0:0.
  function NewAttr(mode: int): Attr {
    Attr(PermissionBits(mode), 0, 0)
  }

  datatype Inode = Inode(fileType: int, attr: Attr, nlink: int, size: int, rdev: int)

  // The unique key of fs_dentry.
  datatype Slot = Slot(parent: int, name: string)

  datatype State = State(
    chunkSize: Positive,
    inodes: map<int, Inode>,
    dentries: map<Slot, int>,
    chunks: map<int, map<nat, Bytes>>,
    symlinks: map<int, string>,
    nextIno: int)

  predicate IsType(s: State, ino: int, fileType: int) {
    ino in s.inodes && s.inodes[ino].fileType == fileType
  }

  predicate IsDir(s: State, ino: int) {
    IsType(s, ino, DIR)
  }

  predicate IsLink(s: State, ino: int) {
    IsType(s, ino, LNK)
  }

  // The dentries that name an inode.
  function Links(s: State, ino: int): set<Slot> {
    set k | k in s.dentries && s.dentries[k] == ino
  }

  predicate IsEmptyDir(s: State, ino: int) {
    forall k :: k in s.dentries ==> k.parent != ino
  }

  // ---- The invariant ----

  predicate SlotValid(s: State, k: Slot)
    requires k in s.dentries
  {
    && IsDir(s, k.parent)
    && s.dentries[k] in s.inodes
    && s.dentries[k] != ROOT
  }

  // nlink counts the dentries; a directory has exactly one.
  predicate InodeValid(s: State, ino: int)
    requires ino in s.inodes
  {
    && ino < s.nextIno
    && (ino != ROOT ==>
          && s.inodes[ino].nlink == |Links(s, ino)|
          && s.inodes[ino].nlink >= 1
          && (IsDir(s, ino) ==> s.inodes[ino].nlink == 1))
  }

  ghost predicate SlotsValid(s: State) {
    forall k :: k in s.dentries ==> SlotValid(s, k)
  }

  ghost predicate InodesValid(s: State) {
    && IsDir(s, ROOT) && s.inodes[ROOT].nlink == 1
    && forall ino :: ino in s.inodes ==> InodeValid(s, ino)
  }

  // No data row without a live file, and a target row for exactly the symlinks.
  ghost predicate RowsValid(s: State) {
    && (forall ino :: ino in s.chunks ==> ino in s.inodes && !IsDir(s, ino))
    && (forall ino :: ino in s.symlinks <==> IsLink(s, ino))
  }

  ghost predicate Valid(s: State) {
    SlotsValid(s) && InodesValid(s) && RowsValid(s)
  }

  function Initial(chunkSize: Positive, mode: int): State {
    State(chunkSize, map[ROOT := Inode(DIR, NewAttr(mode), 1, 0, 0)], map[], map[], map[], 2)
  }

  lemma InitialValid(chunkSize: Positive, mode: int)
    ensures Valid(Initial(chunkSize, mode))
  {
  }

  // A directory's only dentry.
  lemma DirHasOneSlot(s: State, a: Slot, b: Slot)
    requires Valid(s) && a in s.dentries && b in s.dentries
    requires s.dentries[a] == s.dentries[b] && IsDir(s, s.dentries[a])
    ensures a == b
  {
    var ino := s.dentries[a];
    assert SlotValid(s, a) && InodeValid(s, ino);
    OneElement(Links(s, ino), a, b);
  }

  lemma OneElement<T>(elements: set<T>, a: T, b: T)
    requires |elements| == 1 && a in elements && b in elements
    ensures a == b
  {
    assert |elements - {a}| == 0;
  }

  // ---- Plain walk through dentries ----

  function Step(s: State, parent: int, name: string): Option<int> {
    if Slot(parent, name) in s.dentries then Some(s.dentries[Slot(parent, name)]) else None
  }

  function Walk(s: State, from: int, cs: Components): Option<int>
    decreases |cs|
  {
    if cs == [] then Some(from) else
      var child := Step(s, from, cs[0]);
      if child.None? then None else Walk(s, child.value, cs[1..])
  }

  lemma {:induction false} WalkAppend(s: State, from: int, a: Components, b: Components)
    ensures Walk(s, from, a + b) ==
      var mid := Walk(s, from, a); if mid.None? then None else Walk(s, mid.value, b)
    decreases |a|
  {
    if a == [] {
      assert a + b == b;
    } else {
      assert (a + b)[1..] == a[1..] + b;
      var child := Step(s, from, a[0]);
      if child.Some? {
        WalkAppend(s, child.value, a[1..], b);
      }
    }
  }

  lemma WalkSnoc(s: State, from: int, cs: Components, n: string)
    ensures Walk(s, from, cs + [n]) ==
      var mid := Walk(s, from, cs); if mid.None? then None else Step(s, mid.value, n)
  {
    WalkAppend(s, from, cs, [n]);
    var mid := Walk(s, from, cs);
    if mid.Some? {
      var child := Step(s, mid.value, n);
      assert child.Some? ==> Walk(s, child.value, []) == child;
    }
  }

  // A walk that starts at a live inode stays on live inodes.
  lemma {:induction false} WalkLive(s: State, from: int, cs: Components)
    requires Valid(s) && from in s.inodes && Walk(s, from, cs).Some?
    ensures Walk(s, from, cs).value in s.inodes
    ensures cs != [] ==> IsDir(s, from) && Walk(s, from, cs).value != ROOT
    decreases |cs|
  {
    if cs != [] {
      assert SlotValid(s, Slot(from, cs[0]));
      WalkLive(s, Step(s, from, cs[0]).value, cs[1..]);
    }
  }

  // A directory is reached by one path only.
  lemma {:induction false} DirPathUnique(s: State, a: Components, b: Components)
    requires Valid(s)
    requires Walk(s, ROOT, a).Some? && Walk(s, ROOT, a) == Walk(s, ROOT, b)
    requires IsDir(s, Walk(s, ROOT, a).value)
    ensures a == b
    decreases |a|
  {
    WalkLive(s, ROOT, a);
    WalkLive(s, ROOT, b);
    if a != [] && b != [] {
      var a', b' := a[..|a| - 1], b[..|b| - 1];
      var m, n := a[|a| - 1], b[|b| - 1];
      assert a == a' + [m] && b == b' + [n];
      WalkSnoc(s, ROOT, a', m);
      WalkSnoc(s, ROOT, b', n);
      var p, q := Walk(s, ROOT, a').value, Walk(s, ROOT, b').value;
      DirHasOneSlot(s, Slot(p, m), Slot(q, n));
      assert SlotValid(s, Slot(p, m));
      DirPathUnique(s, a', b');
    }
  }

  // ---- Reachability ----

  ghost predicate Below(s: State, top: int, ino: int) {
    exists cs :: Walk(s, top, cs) == Some(ino)
  }

  // Every live inode is reached from the root.
  ghost predicate Tree(s: State) {
    forall ino :: ino in s.inodes ==> Below(s, ROOT, ino)
  }

  lemma BelowStep(s: State, top: int, k: Slot)
    requires k in s.dentries && Below(s, top, k.parent)
    ensures Below(s, top, s.dentries[k])
  {
    var cs :| Walk(s, top, cs) == Some(k.parent);
    WalkSnoc(s, top, cs, k.name);
    assert Walk(s, top, cs + [k.name]) == Some(s.dentries[k]);
  }

  lemma BelowSelf(s: State, top: int)
    ensures Below(s, top, top)
  {
    assert Walk(s, top, []) == Some(top);
  }

  // ---- Row updates ----

  // insertInode (with an insertSymlink row for a target), insertDentry, incrementNlink.
  function Create(s: State, k: Slot, fileType: int, attr: Attr, size: int, rdev: int, target: Option<string>): State {
    s.(inodes := s.inodes[s.nextIno := Inode(fileType, attr, 1, size, rdev)],
       dentries := s.dentries[k := s.nextIno],
       symlinks := if target.Some? then s.symlinks[s.nextIno := target.value] else s.symlinks,
       nextIno := s.nextIno + 1)
  }

  function BumpNlink(s: State, ino: int, delta: int): State {
    if ino in s.inodes
    then s.(inodes := s.inodes[ino := s.inodes[ino].(nlink := s.inodes[ino].nlink + delta)])
    else s
  }

  // insertDentry for an existing inode, incrementNlink.
  function AddLink(s: State, k: Slot, ino: int): State {
    BumpNlink(s.(dentries := s.dentries[k := ino]), ino, 1)
  }

  // deleteInode with its data and symlink rows.
  function Forget(s: State, ino: int): State {
    s.(inodes := s.inodes - {ino}, chunks := s.chunks - {ino}, symlinks := s.symlinks - {ino})
  }

  // deleteDentry, decrementNlink, and the inode with it when that was its last link.
  function Drop(s: State, k: Slot): State
    requires k in s.dentries
  {
    var ino := s.dentries[k];
    var t := BumpNlink(s.(dentries := s.dentries - {k}), ino, -1);
    if ino in t.inodes && t.inodes[ino].nlink == 0 then Forget(t, ino) else t
  }

  // updateDentryParent: no row changes when the old slot is not there.
  function Move(s: State, from: Slot, to: Slot): State {
    if from in s.dentries
    then s.(dentries := (s.dentries - {from})[to := s.dentries[from]])
    else s
  }

  // Replacing a file's data rows and size.
  function PutData(s: State, ino: int, data: Bytes): State
    requires ino in s.inodes
  {
    s.(chunks := s.chunks[ino := Cut(s.chunkSize, data)],
       inodes := s.inodes[ino := s.inodes[ino].(size := |data|)])
  }

  // t has everything s has.
  ghost predicate Grows(s: State, t: State) {
    && (forall k :: k in s.dentries ==> k in t.dentries && t.dentries[k] == s.dentries[k])
    && (forall ino :: ino in s.inodes ==> ino in t.inodes && t.inodes[ino] == s.inodes[ino])
  }

  // ---- Each update keeps the invariant ----

  lemma CreateValid(s: State, k: Slot, fileType: int, attr: Attr, size: int, rdev: int, target: Option<string>)
    requires Valid(s) && IsDir(s, k.parent) && k !in s.dentries
    requires target.Some? <==> fileType == LNK
    ensures Valid(Create(s, k, fileType, attr, size, rdev, target))
  {
    var t := Create(s, k, fileType, attr, size, rdev, target);
    var created := s.nextIno;
    FreshIno(s);
    forall j | j in t.dentries
      ensures SlotValid(t, j)
    {
      if j != k {
        assert SlotValid(s, j);
      }
    }
    forall ino | ino in t.inodes
      ensures InodeValid(t, ino)
    {
      if ino == created {
        LinksOfFresh(s, created);
        assert Links(t, created) == {k};
      } else {
        assert InodeValid(s, ino);
        assert Links(t, ino) == Links(s, ino);
      }
    }
  }

  lemma CreateGrows(s: State, k: Slot, fileType: int, attr: Attr, size: int, rdev: int, target: Option<string>)
    requires Valid(s) && k !in s.dentries
    ensures Grows(s, Create(s, k, fileType, attr, size, rdev, target))
  {
    FreshIno(s);
  }

  lemma FreshIno(s: State)
    requires Valid(s)
    ensures s.nextIno !in s.inodes
  {
    forall ino | ino in s.inodes
      ensures ino != s.nextIno
    {
      assert InodeValid(s, ino);
    }
  }

  lemma LinksOfFresh(s: State, ino: int)
    requires Valid(s) && ino !in s.inodes
    ensures Links(s, ino) == {}
  {
    forall j | j in s.dentries
      ensures s.dentries[j] != ino
    {
      assert SlotValid(s, j);
    }
  }

  lemma AddLinkValid(s: State, k: Slot, ino: int)
    requires Valid(s) && IsDir(s, k.parent) && k !in s.dentries
    requires ino in s.inodes && !IsDir(s, ino)
    ensures Valid(AddLink(s, k, ino))
  {
    var t := AddLink(s, k, ino);
    assert SlotsValid(t) by {
      forall j | j in t.dentries
        ensures SlotValid(t, j)
      {
        assert j != k ==> SlotValid(s, j);
      }
    }
    AddLinkCounts(s, k, ino);
  }

  lemma AddLinkCounts(s: State, k: Slot, ino: int)
    requires InodesValid(s) && k !in s.dentries && ino in s.inodes && ino != ROOT && !IsDir(s, ino)
    ensures InodesValid(AddLink(s, k, ino))
  {
    var t := AddLink(s, k, ino);
    forall i | i in t.inodes
      ensures InodeValid(t, i)
    {
      assert InodeValid(s, i);
      assert Links(t, i) == if i == ino then Links(s, i) + {k} else Links(s, i);
    }
  }

  // The inodes of t are inodes of s with the same type.
  ghost predicate SameTypes(s: State, t: State) {
    forall i :: i in t.inodes ==> i in s.inodes && t.inodes[i].fileType == s.inodes[i].fileType
  }

  lemma DropValid(s: State, k: Slot)
    requires Valid(s) && k in s.dentries
    requires IsDir(s, s.dentries[k]) ==> IsEmptyDir(s, s.dentries[k])
    ensures Valid(Drop(s, k))
    ensures IsDir(s, s.dentries[k]) ==> s.dentries[k] !in Drop(s, k).inodes
  {
    var t, gone := Drop(s, k), s.dentries[k];
    DropCounts(s, k);
    assert InodeValid(s, gone);
    DropSlots(s, k);
    DropInodes(s, k);
  }

  lemma DropSlots(s: State, k: Slot)
    requires Valid(s) && k in s.dentries
    requires IsDir(s, s.dentries[k]) ==> IsEmptyDir(s, s.dentries[k])
    ensures SlotsValid(Drop(s, k))
  {
    var t, gone := Drop(s, k), s.dentries[k];
    DropCounts(s, k);
    forall j | j in t.dentries
      ensures SlotValid(t, j)
    {
      assert SlotValid(s, j);
      assert s.dentries[j] == gone ==> j in Links(t, gone);
    }
  }

  lemma DropInodes(s: State, k: Slot)
    requires Valid(s) && k in s.dentries
    ensures InodesValid(Drop(s, k))
  {
    var t, gone := Drop(s, k), s.dentries[k];
    DropCounts(s, k);
    assert SlotValid(s, k);
    forall i | i in t.inodes
      ensures InodeValid(t, i)
    {
      assert InodeValid(s, i);
      if i != gone {
        assert Links(t, i) == Links(s, i);
      }
    }
  }

  // The dropped inode lives on exactly when other dentries name it.
  lemma DropCounts(s: State, k: Slot)
    requires Valid(s) && k in s.dentries
    ensures var t, gone := Drop(s, k), s.dentries[k];
      && SameTypes(s, t)
      && s.inodes.Keys - {gone} <= t.inodes.Keys
      && Links(t, gone) == Links(s, gone) - {k}
      && |Links(t, gone)| == |Links(s, gone)| - 1
      && (gone in t.inodes <==> Links(t, gone) != {})
      && (gone in t.inodes ==> t.inodes[gone] == s.inodes[gone].(nlink := |Links(t, gone)|))
  {
    var t, gone := Drop(s, k), s.dentries[k];
    assert SlotValid(s, k) && InodeValid(s, gone);
    assert Links(t, gone) == Links(s, gone) - {k} && k in Links(s, gone);
  }

  lemma MoveValid(s: State, from: Slot, to: Slot)
    requires Valid(s) && IsDir(s, to.parent) && to !in s.dentries
    ensures Valid(Move(s, from, to))
  {
    if from in s.dentries {
      var t, moved := Move(s, from, to), s.dentries[from];
      assert SlotValid(s, from);
      forall j | j in t.dentries
        ensures SlotValid(t, j)
      {
        if j != to {
          assert SlotValid(s, j);
        }
      }
      forall i | i in t.inodes
        ensures InodeValid(t, i)
      {
        assert InodeValid(s, i);
        if i == moved {
          assert from in Links(s, i);
          assert Links(t, i) == Links(s, i) - {from} + {to};
        } else {
          assert Links(t, i) == Links(s, i);
        }
      }
    }
  }

  lemma PutDataValid(s: State, ino: int, data: Bytes)
    requires Valid(s) && ino in s.inodes && !IsDir(s, ino)
    ensures Valid(PutData(s, ino, data))
  {
    var t := PutData(s, ino, data);
    forall k | k in t.dentries
      ensures SlotValid(t, k)
    {
      assert SlotValid(s, k);
    }
    forall i | i in t.inodes
      ensures InodeValid(t, i)
    {
      assert InodeValid(s, i);
      assert Links(t, i) == Links(s, i);
    }
  }
}
