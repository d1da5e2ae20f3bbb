// What every namespace call does to the rows and entries of the tables, told without the row updates
// it is made of, for all paths, symlinks included.
module Effects {
  import opened Common
  import opened Paths
  import opened ChunkStore
  import opened Tables
  import opened Resolution
  import opened Namespace
  import opened MadeParents
  import opened RenameExact

  // ---- Rows and entries ----

  // All that the tables hold for an inode number.
  datatype Row = Row(inode: Option<Inode>, data: Option<map<nat, Bytes>>, target: Option<string>)

  const NoRow := Row(None, None, None)

  function RowAt(s: State, ino: int): Row {
    Row(if ino in s.inodes then Some(s.inodes[ino]) else None,
        if ino in s.chunks then Some(s.chunks[ino]) else None,
        if ino in s.symlinks then Some(s.symlinks[ino]) else None)
  }

  function EntryAt(s: State, k: Slot): Option<int> {
    if k in s.dentries then Some(s.dentries[k]) else None
  }

  // No row outside `changed` differs.
  ghost predicate RowsBut(s: State, t: State, changed: set<int>) {
    t.chunkSize == s.chunkSize && forall i :: i !in changed ==> RowAt(t, i) == RowAt(s, i)
  }

  // No entry outside `changed` differs.
  ghost predicate EntriesBut(s: State, t: State, changed: set<Slot>) {
    forall k :: k !in changed ==> EntryAt(t, k) == EntryAt(s, k)
  }

  lemma NoRowAtNext(s: State)
    requires Valid(s)
    ensures forall i :: i >= s.nextIno ==> RowAt(s, i) == NoRow
  {
    forall i | i in s.inodes
      ensures i < s.nextIno
    {
      assert InodeValid(s, i);
    }
  }

  // ---- MkdirAll ----

  // Leading names that are short enough.
  function ShortNames(names: Components): (n: nat)
    ensures n <= |names|
  {
    if names != [] && |names[0]| <= MAX_NAME_LEN then 1 + ShortNames(names[1..]) else 0
  }

  // The i-th of a chain of new directories that starts in the directory `at`, `next` being the
  // first new inode number.
  function ChainSlot(at: int, next: int, names: Components, i: nat): Slot
    requires i < |names|
  {
    Slot(if i == 0 then at else next + i - 1, names[i])
  }

  ghost predicate InChain(at: int, next: int, names: Components, n: nat, k: Slot)
    requires n <= |names|
  {
    exists i: nat :: i < n && k == ChainSlot(at, next, names, i)
  }

  ghost predicate ChainEntries(s: State, t: State, at: int, names: Components, n: nat)
    requires n <= |names|
  {
    && (forall i: nat :: i < n ==> EntryAt(t, ChainSlot(at, s.nextIno, names, i)) == Some(s.nextIno + i))
    && (forall k :: !InChain(at, s.nextIno, names, n, k) ==> EntryAt(t, k) == EntryAt(s, k))
  }

  ghost predicate ChainRows(s: State, t: State, n: nat, mode: int) {
    && t.nextIno == s.nextIno + n && t.chunkSize == s.chunkSize
    && forall i :: RowAt(t, i) ==
         if s.nextIno <= i < s.nextIno + n then Row(Some(Inode(DIR, NewAttr(mode), 1, 0, 0)), None, None) else RowAt(s, i)
  }

  // t is s with n new empty directories, each in the one before; nothing else differs.
  ghost predicate Chain(s: State, t: State, at: int, names: Components, n: nat, mode: int)
    requires n <= |names|
  {
    ChainEntries(s, t, at, names, n) && ChainRows(s, t, n, mode)
  }

  lemma ChainShift(at: int, next: int, names: Components, n: nat, k: Slot)
    requires n + 1 <= |names|
    ensures InChain(at, next, names, n + 1, k) <==> k == Slot(at, names[0]) || InChain(next, next + 1, names[1..], n, k)
  {
    if InChain(at, next, names, n + 1, k) && k != Slot(at, names[0]) {
      var i: nat :| i < n + 1 && k == ChainSlot(at, next, names, i);
      assert k == ChainSlot(next, next + 1, names[1..], i - 1);
    }
    if InChain(next, next + 1, names[1..], n, k) {
      var i: nat :| i < n && k == ChainSlot(next, next + 1, names[1..], i);
      assert k == ChainSlot(at, next, names, i + 1);
    }
    if k == Slot(at, names[0]) {
      assert k == ChainSlot(at, next, names, 0);
    }
  }

  // The first directory made, then the others below it.
  lemma EntriesFurther(s: State, s1: State, t: State, at: int, names: Components, n: nat)
    requires n + 1 <= |names| && at < s.nextIno
    requires s1.nextIno == s.nextIno + 1 && s1.dentries == s.dentries[Slot(at, names[0]) := s.nextIno]
    requires ChainEntries(s1, t, s.nextIno, names[1..], n)
    ensures ChainEntries(s, t, at, names, n + 1)
  {
    forall i: nat | i < n + 1
      ensures EntryAt(t, ChainSlot(at, s.nextIno, names, i)) == Some(s.nextIno + i)
    {
      if i > 0 {
        assert ChainSlot(s.nextIno, s1.nextIno, names[1..], i - 1) == ChainSlot(at, s.nextIno, names, i);
      } else {
        assert !InChain(s.nextIno, s1.nextIno, names[1..], n, Slot(at, names[0]));
      }
    }
    forall k | !InChain(at, s.nextIno, names, n + 1, k)
      ensures EntryAt(t, k) == EntryAt(s, k)
    {
      ChainShift(at, s.nextIno, names, n, k);
    }
  }

  lemma ChainFurther(s: State, s1: State, t: State, at: int, names: Components, n: nat, mode: int)
    requires Valid(s) && n + 1 <= |names| && IsDir(s, at) && Slot(at, names[0]) !in s.dentries
    requires s1 == Create(s, Slot(at, names[0]), DIR, NewAttr(mode), 0, 0, None)
    requires Chain(s1, t, s.nextIno, names[1..], n, mode)
    ensures Chain(s, t, at, names, n + 1, mode)
  {
    assert InodeValid(s, at);
    NoRowAtNext(s);
    EntriesFurther(s, s1, t, at, names, n);
  }

  // The names that are left to make.
  function Rest(s: State, path: Components): Components {
    path[FoundDepth(s, path)..]
  }

  // How many of them MkdirAll makes: none if what is found is no directory or the first name is taken.
  function MadeCount(s: State, path: Components): (n: nat)
    ensures n <= |Rest(s, path)|
  {
    var names := Rest(s, path);
    if !IsDir(s, Anchor(s, path)) || (names != [] && Slot(Anchor(s, path), names[0]) in s.dentries) then 0
    else ShortNames(names)
  }

  // What the whole path leads to afterwards.
  function EndOf(s: State, path: Components): int {
    if Rest(s, path) == [] then Anchor(s, path) else s.nextIno + |Rest(s, path)| - 1
  }

  ghost predicate Makes(s: State, t: State, path: Components, mode: int) {
    Chain(s, t, Anchor(s, path), Rest(s, path), MadeCount(s, path), mode)
  }

  lemma MakesFurther(s: State, s1: State, t: State, path: Components, mode: int)
    requires Valid(s) && FoundDepth(s, path) < |path| && IsDir(s, Anchor(s, path))
    requires var k := Slot(Anchor(s, path), path[FoundDepth(s, path)]);
      && k !in s.dentries && |k.name| <= MAX_NAME_LEN && s1 == Create(s, k, DIR, NewAttr(mode), 0, 0, None)
    requires FoundDepth(s1, path) == FoundDepth(s, path) + 1 && Anchor(s1, path) == s.nextIno
    requires IsDir(s1, s.nextIno) && IsEmptyDir(s1, s.nextIno) && Makes(s1, t, path, mode)
    ensures Makes(s, t, path, mode) && EndOf(s1, path) == EndOf(s, path)
    ensures MadeCount(s1, path) == |Rest(s1, path)| <==> MadeCount(s, path) == |Rest(s, path)|
  {
    var names := Rest(s, path);
    assert names[1..] == Rest(s1, path);
    assert MadeCount(s, path) == MadeCount(s1, path) + 1;
    ChainFurther(s, s1, t, Anchor(s, path), names, MadeCount(s1, path), mode);
  }

  ghost predicate Leaves(s: State, t: State, r: Status, path: Components, mode: int) {
    && Makes(s, t, path, mode)
    && (r.Done? ==> MadeCount(s, path) == |Rest(s, path)| && Lookup(t, path) == Ok(EndOf(s, path)))
  }

  lemma MakesNothing(s: State, path: Components, mode: int)
    requires MadeCount(s, path) == 0
    ensures Makes(s, s, path, mode)
  {
  }

  // What MkdirAll makes, whether it succeeds or stops; and where the path leads when it succeeds.
  lemma {:induction false} MkdirAllFromLeaves(s: State, path: Components, i: nat, mode: int)
    requires Valid(s) && Clean(path) && i <= |path|
    requires Lookup(s, path[..i]).Ok? && IsDir(s, Lookup(s, path[..i]).value)
    ensures var (t, r) := MkdirAllFrom(s, path, i, mode); Leaves(s, t, r, path, mode)
    decreases |path| - i
  {
    if i == |path| {
      assert path[..i] == path;
      FoundIs(s, path, i);
      assert MkdirAllFrom(s, path, i, mode) == (s, Done);
    } else {
      var x := path[..i + 1];
      CleanTake(path, i + 1);
      RenormalizeIsClean(x);
      var (s1, r) := EnsureDir(s, x, mode);
      assert MkdirAllFrom(s, path, i, mode) == if r.Failed? then (s1, r) else MkdirAllFrom(s1, path, i + 1, mode);
      if Lookup(s, x).Err? {
        LeavesNew(s, path, i, mode);
        if r.Done? {
          MkdirAllFromLeaves(s1, path, i + 1, mode);
          MakesFurther(s, s1, MkdirAllFrom(s1, path, i + 1, mode).0, path, mode);
        }
      } else if IsDir(s, Lookup(s, x).value) {
        MkdirAllFromLeaves(s, path, i + 1, mode);
      } else {
        FileStops(s, path, i);
        MakesNothing(s, path, mode);
      }
    }
  }

  // A round that meets a missing name.
  lemma LeavesNew(s: State, path: Components, i: nat, mode: int)
    requires Valid(s) && Clean(path) && i < |path|
    requires Lookup(s, path[..i]).Ok? && IsDir(s, Lookup(s, path[..i]).value) && Lookup(s, path[..i + 1]).Err?
    ensures FoundDepth(s, path) == i && IsDir(s, Anchor(s, path))
    ensures var (s1, r) := EnsureDir(s, path[..i + 1], mode);
      if r.Failed? then s1 == s && Makes(s, s, path, mode)
      else
        var k := Slot(Anchor(s, path), path[i]);
        && k !in s.dentries && |k.name| <= MAX_NAME_LEN && s1 == Create(s, k, DIR, NewAttr(mode), 0, 0, None)
        && Valid(s1) && FoundDepth(s1, path) == i + 1 && Anchor(s1, path) == s.nextIno
        && Lookup(s1, path[..i + 1]) == Ok(s.nextIno) && IsDir(s1, s.nextIno) && IsEmptyDir(s1, s.nextIno)
  {
    MakeExactly(s, path, i, mode);
    var (s1, r) := EnsureDir(s, path[..i + 1], mode);
    if r.Done? {
      MakeOne(s, path, i, mode);
      MadeOneFurther(s, s1, path, NewAttr(mode));
    } else {
      assert Rest(s, path)[0] == path[i];
      MakesNothing(s, path, mode);
    }
  }

  lemma MkdirAllLeaves(s: State, path: Components, mode: int)
    requires Valid(s) && Clean(path)
    ensures var (t, r) := MkdirAll(s, path, mode); Leaves(s, t, r, path, mode) && (r.Done? <==> CanMake(s, path))
  {
    RootFound(s);
    assert path[..0] == [];
    assert InodeValid(s, ROOT);
    MkdirAllFromLeaves(s, path, 0, mode);
    ParentMadeExactly(s, path, mode);
  }

  // ---- Paths that keep their meaning ----

  // t has all entries of s, and every inode of s with its type and target.
  ghost predicate Wider(s: State, t: State) {
    && (forall k :: k in s.dentries ==> k in t.dentries && t.dentries[k] == s.dentries[k])
    && (forall i :: i in s.inodes ==> i in t.inodes && t.inodes[i].fileType == s.inodes[i].fileType)
    && (forall i :: i in s.symlinks ==> i in t.symlinks && t.symlinks[i] == s.symlinks[i])
  }

  lemma {:induction false} ScanWider(s: State, t: State, cs: Components, i: nat, at: int, followLast: bool)
    requires Wider(s, t) && i <= |cs|
    ensures var r := Scan(s, cs, i, at, followLast); r.Found? || r.AtLink? ==> Scan(t, cs, i, at, followLast) == r
    decreases |cs| - i
  {
    if i < |cs| {
      var child := Step(s, at, cs[i]);
      if child.Some? && child.value in s.inodes {
        ScanWider(s, t, cs, i + 1, child.value, followLast);
      }
    }
  }

  lemma {:induction false} ResolveWider(s: State, t: State, cs: Components, followLast: bool, budget: nat)
    requires Wider(s, t) && Resolve(s, cs, followLast, budget).Ok?
    ensures Resolve(t, cs, followLast, budget) == Resolve(s, cs, followLast, budget)
    decreases budget
  {
    ScanWider(s, t, cs, 0, ROOT, followLast);
    match Scan(s, cs, 0, ROOT, followLast)
    case AtLink(pos, ino) => ResolveWider(s, t, Redirect(cs, pos, s.symlinks[ino]), followLast, budget - 1);
    case _ =>
  }

  lemma {:induction false} ScanStep(s: State, cs: Components, i: nat, at: int, n: string, followLast: bool)
    requires i <= |cs|
    ensures var r, longer := Scan(s, cs, i, at, true), Scan(s, cs + [n], i, at, followLast);
      && (r.AtLink? ==> longer == r)
      && (r.Found? && IsDir(s, r.ino) ==> longer == Scan(s, cs + [n], |cs|, r.ino, followLast))
    decreases |cs| - i
  {
    if i < |cs| {
      assert (cs + [n])[i] == cs[i];
      var child := Step(s, at, cs[i]);
      if child.Some? && child.value in s.inodes {
        if i + 1 == |cs| {
          assert Scan(s, cs, i + 1, child.value, true) == Found(child.value);
        }
        ScanStep(s, cs, i + 1, child.value, n, followLast);
      }
    }
  }

  // One component more, when the entry is there.
  lemma {:induction false} ResolveStep(s: State, cs: Components, n: string, followLast: bool, budget: nat)
    requires Valid(s) && Clean([n]) && Resolve(s, cs, true, budget).Ok?
    requires var d := Resolve(s, cs, true, budget).value;
      && IsDir(s, d) && Slot(d, n) in s.dentries
      && (IsLink(s, s.dentries[Slot(d, n)]) ==> !followLast)
    ensures Resolve(s, cs + [n], followLast, budget) == Ok(s.dentries[Slot(Resolve(s, cs, true, budget).value, n)])
    decreases budget
  {
    ScanStep(s, cs, 0, ROOT, n, followLast);
    match Scan(s, cs, 0, ROOT, true)
    case AtLink(pos, ino) =>
      RedirectSnoc(cs, pos, s.symlinks[ino], n);
      ResolveStep(s, Redirect(cs, pos, s.symlinks[ino]), n, followLast, budget - 1);
    case Found(d) =>
      assert SlotValid(s, Slot(d, n));
      assert (cs + [n])[|cs|] == n;
    case _ =>
  }

  // The entry at the end of a clean path is what the path leads to, a symlink not followed.
  lemma EntryFound(s: State, path: Components, followLast: bool)
    requires Valid(s) && Clean(path) && HasEntry(s, path) && IsDir(s, EntrySlot(s, path).parent)
    requires IsLink(s, s.dentries[EntrySlot(s, path)]) ==> !followLast
    ensures Resolve(s, path, followLast, MAX_SYMLINK_DEPTH) == Ok(s.dentries[EntrySlot(s, path)])
  {
    ParentOfClean(path);
    RenormalizeIsClean(ParentOf(path));
    assert NameOf(path) in path;
    ResolveStep(s, ParentOf(path), NameOf(path), followLast, MAX_SYMLINK_DEPTH);
  }

  // ---- Calls that add an entry ----

  // The slot a creating call works on.
  function NewSlot(s: State, path: Components): Slot {
    Slot(EndOf(s, ParentOf(path)), NameOf(path))
  }

  // v is t with the entry k for ino, whose row is then `row`; nothing else differs.
  ghost predicate Enters(t: State, v: State, k: Slot, ino: int, row: Row) {
    && EntryAt(t, k).None? && EntryAt(v, k) == Some(ino) && EntriesBut(t, v, {k})
    && RowAt(v, ino) == row && RowsBut(t, v, {ino})
  }

  // The path leads to ino; a symlink is found when it is not followed.
  ghost predicate Leads(v: State, path: Components, ino: int) {
    && HasEntry(v, path) && v.dentries[EntrySlot(v, path)] == ino
    && (Clean(path) ==> Resolve(v, path, !IsLink(v, ino), MAX_SYMLINK_DEPTH) == Ok(ino))
  }

  lemma SlotsOfNew(s: State, path: Components)
    requires Valid(s) && Proper(path) && CanMake(s, ParentOf(path))
    ensures NewSlot(s, path) in s.dentries ==> MadeCount(s, ParentOf(path)) == 0 && Rest(s, ParentOf(path)) == []
  {
    if NewSlot(s, path) in s.dentries {
      assert SlotValid(s, NewSlot(s, path));
      assert InodeValid(s, NewSlot(s, path).parent);
    }
  }

  lemma MakesWider(s: State, t: State, path: Components, mode: int)
    requires Valid(s) && Grows(s, t) && Makes(s, t, path, mode)
    ensures Wider(s, t)
  {
    forall i | i in s.inodes
      ensures RowAt(t, i) == RowAt(s, i)
    {
      assert InodeValid(s, i);
    }
    forall i | i in s.symlinks
      ensures i in t.symlinks && t.symlinks[i] == s.symlinks[i]
    {
      assert IsLink(s, i) && RowAt(t, i).target == RowAt(s, i).target;
    }
  }

  lemma EndIsFree(s: State, t: State, path: Components, mode: int, n: string)
    requires Valid(s) && Makes(s, t, path, mode) && MadeCount(s, path) == |Rest(s, path)|
    ensures EntryAt(t, Slot(EndOf(s, path), n)) == EntryAt(s, Slot(EndOf(s, path), n))
  {
    var names := Rest(s, path);
    if names != [] && IsDir(s, Anchor(s, path)) {
      assert InodeValid(s, Anchor(s, path));
    }
    assert !InChain(Anchor(s, path), s.nextIno, names, |names|, Slot(EndOf(s, path), n));
  }

  // The parent made by a creating call, from the tables before it.
  lemma ParentLeaves(s: State, path: Components)
    requires Valid(s) && Proper(path)
    ensures var (t, r) := MkdirAll(s, ParentOf(path), 0x1ed);
      && Valid(t) && Makes(s, t, ParentOf(path), 0x1ed) && Wider(s, t)
      && (r.Done? <==> CanMake(s, ParentOf(path)))
      && (r.Done? ==>
            && Lookup(t, ParentOf(path)) == Ok(NewSlot(s, path).parent) && IsDir(t, NewSlot(s, path).parent)
            && EntryAt(t, NewSlot(s, path)) == EntryAt(s, NewSlot(s, path))
            && (Rest(s, ParentOf(path)) == [] ==> t == s))
  {
    ParentClean(path);
    ParentMade(s, path);
    MkdirAllLeaves(s, ParentOf(path), 0x1ed);
    var (t, r) := MkdirAll(s, ParentOf(path), 0x1ed);
    MakesWider(s, t, ParentOf(path), 0x1ed);
    if r.Done? {
      ParentMadeExactly(s, ParentOf(path), 0x1ed);
      EndIsFree(s, t, ParentOf(path), 0x1ed, NameOf(path));
    }
  }
}
