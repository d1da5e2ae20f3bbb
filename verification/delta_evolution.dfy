// What the overlay's calls do to the delta's inodes, and what they show anew.
module DeltaEvolution {
  import opened Common
  import opened Paths
  import opened ChunkStore
  import opened Tables
  import opened Resolution
  import NS = Namespace
  import opened RenameTree
  import opened RenamePaths
  import opened PlainView
  import opened Overlay
  import opened OverlayLaws
  import opened OverlayExact
  import opened OverlayRuns
  import opened OverlayJoin
  import I = OverlayInodes

  // ---- How the delta evolves: inodes stay at their paths until they go, and never come back ----

  ghost predicate Evolves(d: State, d1: State) {
    && d.nextIno <= d1.nextIno
    && (forall i :: i in d1.inodes && i < d.nextIno ==> i in d.inodes)
    && (forall p :: Walk(d, ROOT, p).Some? && Walk(d, ROOT, p).value in d1.inodes ==> Walk(d1, ROOT, p) == Walk(d, ROOT, p))
    && (forall p :: Walk(d1, ROOT, p).Some? && Walk(d1, ROOT, p).value < d.nextIno ==> Walk(d, ROOT, p) == Walk(d1, ROOT, p))
  }

  ghost predicate KeepsInodes(d: State, d1: State) { forall i :: i in d.inodes ==> i in d1.inodes }

  ghost predicate Extends(d: State, d1: State) { Evolves(d, d1) && KeepsInodes(d, d1) }

  lemma PathInode(d: State, p: Components)
    requires Valid(d) && Walk(d, ROOT, p).Some?
    ensures Walk(d, ROOT, p).value in d.inodes && Walk(d, ROOT, p).value < d.nextIno
  {
    WalkLive(d, ROOT, p);
    assert InodeValid(d, Walk(d, ROOT, p).value);
  }

  lemma EvolvesTwice(d: State, d1: State, d2: State)
    requires Plain(d) && Evolves(d, d1) && Evolves(d1, d2)
    ensures Evolves(d, d2)
  {
    forall p | Walk(d, ROOT, p).Some? && Walk(d, ROOT, p).value in d2.inodes
      ensures Walk(d2, ROOT, p) == Walk(d, ROOT, p)
    {
      PathInode(d, p);
    }
  }

  lemma ExtendsTwice(d: State, d1: State, d2: State)
    requires Plain(d) && Extends(d, d1) && Extends(d1, d2)
    ensures Extends(d, d2)
  {
    EvolvesTwice(d, d1, d2);
  }

  lemma CreateExtends(d: State, pre: Components, k: Slot, fileType: int, attr: Attr, size: int)
    requires Plain(d) && Walk(d, ROOT, pre) == Some(k.parent) && IsDir(d, k.parent) && k !in d.dentries
    requires fileType == DIR || fileType == REG
    ensures Extends(d, Create(d, k, fileType, attr, size, 0, None))
  {
    var t := Create(d, k, fileType, attr, size, 0, None);
    FreshIno(d);
    forall p
      ensures Walk(d, ROOT, p).Some? ==> Walk(t, ROOT, p) == Walk(d, ROOT, p)
      ensures Walk(t, ROOT, p).Some? && Walk(t, ROOT, p).value < d.nextIno ==> Walk(d, ROOT, p) == Walk(t, ROOT, p)
    {
      CreatedPath(d, pre, k, fileType, attr, size, None, p);
      if Walk(d, ROOT, p).Some? { WalkKept(d, t, ROOT, p); }
    }
  }

  lemma PutDataExtends(d: State, ino: int, data: Bytes)
    requires ino in d.inodes
    ensures Extends(d, PutData(d, ino, data))
  {
    var t := PutData(d, ino, data);
    forall p
      ensures Walk(t, ROOT, p) == Walk(d, ROOT, p)
    {
      SameWalk(d, t, ROOT, p);
    }
  }

  lemma DropEvolves(d: State, pre: Components, k: Slot)
    requires Plain(d) && k in d.dentries && Walk(d, ROOT, pre) == Some(k.parent) && IsEmptyDir(d, d.dentries[k])
    ensures Evolves(d, Drop(d, k))
  {
    var t := Drop(d, k);
    assert SlotValid(d, k) && PlainInode(d, d.dentries[k]) && InodeValid(d, d.dentries[k]);
    DropCounts(d, k);
    forall p
      ensures Walk(d, ROOT, p).Some? && Walk(d, ROOT, p).value in t.inodes ==> Walk(t, ROOT, p) == Walk(d, ROOT, p)
      ensures Walk(t, ROOT, p).Some? ==> Walk(d, ROOT, p) == Walk(t, ROOT, p)
    {
      DropWalk(d, pre, k, p);
    }
  }

  lemma DropWalk(d: State, pre: Components, k: Slot, p: Components)
    requires Plain(d) && k in d.dentries && Walk(d, ROOT, pre) == Some(k.parent) && IsEmptyDir(d, d.dentries[k])
    ensures Walk(Drop(d, k), ROOT, p) == if pre + [k.name] <= p then None else Walk(d, ROOT, p)
    ensures pre + [k.name] <= p && Walk(d, ROOT, p).Some? ==> Walk(d, ROOT, p).value == d.dentries[k]
  {
    assert SlotValid(d, k);
    ClearedWalk(d, pre, k, p);
    if pre + [k.name] <= p && Walk(d, ROOT, p).Some? {
      NothingBelow(d, pre, k, p);
    }
  }

  lemma NothingBelow(d: State, pre: Components, k: Slot, p: Components)
    requires k in d.dentries && Walk(d, ROOT, pre) == Some(k.parent) && IsEmptyDir(d, d.dentries[k])
    requires pre + [k.name] <= p && Walk(d, ROOT, p).Some?
    ensures p == pre + [k.name] && Walk(d, ROOT, p).value == d.dentries[k]
  {
    var path, rest := pre + [k.name], p[|pre| + 1..];
    assert p == path + rest;
    WalkSnoc(d, ROOT, pre, k.name);
    WalkAppend(d, ROOT, path, rest);
    assert rest == [];
  }

  lemma MkdirExtends(d: State, cs: Components, mode: int)
    requires Plain(d) && Clean(cs) && cs != []
    ensures Plain(NS.Mkdir(d, cs, mode).0) && Extends(d, NS.Mkdir(d, cs, mode).0)
  {
    MkdirLaw(d, cs, mode);
    if NS.Mkdir(d, cs, mode).1.Done? {
      ParentOfClean(cs);
      LookupView(d, ParentOf(cs));
      CreateExtends(d, ParentOf(cs), Slot(Lookup(d, ParentOf(cs)).value, NameOf(cs)), DIR, NewAttr(mode), 0);
    }
  }

  lemma EnsureExtends(d: State, x: Components, mode: int)
    requires Plain(d) && Clean(x) && x != []
    ensures Plain(NS.EnsureDir(d, x, mode).0) && Extends(d, NS.EnsureDir(d, x, mode).0)
  {
    MkdirExtends(d, x, mode);
  }

  lemma {:induction false} MkdirAllExtends(d: State, path: Components, i: nat, mode: int)
    requires Plain(d) && Clean(path) && i <= |path|
    ensures Plain(NS.MkdirAllFrom(d, path, i, mode).0) && Extends(d, NS.MkdirAllFrom(d, path, i, mode).0)
    decreases |path| - i
  {
    if i < |path| {
      var x := path[..i + 1];
      RenormalizeIsClean(x);
      EnsureExtends(d, x, mode);
      var (t, r) := NS.EnsureDir(d, x, mode);
      if r.Done? {
        MkdirAllExtends(t, path, i + 1, mode);
        ExtendsTwice(d, t, NS.MkdirAllFrom(t, path, i + 1, mode).0);
        assert NS.MkdirAllFrom(d, path, i, mode) == NS.MkdirAllFrom(t, path, i + 1, mode);
      }
    }
  }

  lemma WriteExtends(d: State, cs: Components, data: Bytes, mode: int)
    requires Plain(d) && Clean(cs) && cs != []
    ensures Extends(d, NS.WriteFile(d, cs, data, mode).0)
  {
    var t := NS.MkdirAll(d, ParentOf(cs), 0x1ed).0;
    ParentOfClean(cs);
    MkdirAllExtends(d, ParentOf(cs), 0, 0x1ed);
    WriteOutcome(d, cs, data, mode);
    if NS.WriteFile(d, cs, data, mode).1.Done? {
      WriteIsStore(d, cs, data, mode);
      var k := Slot(Lookup(t, ParentOf(cs)).value, NameOf(cs));
      StoreExtends(t, cs, data, mode, k);
      ExtendsTwice(d, t, Store(t, k, data, mode));
    }
  }

  lemma WriteOutcome(d: State, cs: Components, data: Bytes, mode: int)
    ensures var (t, r) := NS.WriteFile(d, cs, data, mode);
      r.Failed? ==> t == d || t == NS.MkdirAll(d, ParentOf(cs), 0x1ed).0
  {
  }

  lemma WriteIsStore(d: State, cs: Components, data: Bytes, mode: int)
    requires Plain(d) && Clean(cs) && cs != [] && NS.WriteFile(d, cs, data, mode).1.Done?
    ensures var t := NS.MkdirAll(d, ParentOf(cs), 0x1ed).0;
      && Lookup(t, ParentOf(cs)).Ok?
      && var k := Slot(Lookup(t, ParentOf(cs)).value, NameOf(cs));
      && (k in t.dentries ==> t.dentries[k] in t.inodes)
      && NS.WriteFile(d, cs, data, mode).0 == Store(t, k, data, mode)
      && Walk(t, ROOT, ParentOf(cs)) == Some(k.parent) && IsDir(t, k.parent)
  {
    var t := NS.MkdirAll(d, ParentOf(cs), 0x1ed).0;
    ParentOfClean(cs);
    MkdirAllLaw(d, ParentOf(cs), 0x1ed);
    LookupView(t, ParentOf(cs));
    ViewExists(t, ParentOf(cs));
  }

  lemma StoreExtends(t: State, cs: Components, data: Bytes, mode: int, k: Slot)
    requires Plain(t) && Clean(cs) && cs != [] && Walk(t, ROOT, ParentOf(cs)) == Some(k.parent) && IsDir(t, k.parent)
    requires k in t.dentries ==> t.dentries[k] in t.inodes
    ensures Extends(t, Store(t, k, data, mode))
  {
    if k in t.dentries {
      PutDataExtends(t, t.dentries[k], data);
    } else {
      var c := Create(t, k, REG, NewAttr(mode), |data|, 0, None);
      CreateExtends(t, ParentOf(cs), k, REG, NewAttr(mode), |data|);
      PutDataExtends(c, t.nextIno, data);
      ExtendsTwice(t, c, PutData(c, t.nextIno, data));
    }
  }

  lemma RemovalEvolves(d: State, cs: Components)
    requires Plain(d) && Clean(cs) && cs != []
    ensures Evolves(d, NS.Unlink(d, cs).0) && Evolves(d, NS.Rmdir(d, cs).0)
  {
    RemovalLookup(d, cs);
    if NS.Unlink(d, cs).1.Done? {
      var k := Slot(Walk(d, ROOT, ParentOf(cs)).value, NameOf(cs));
      FileIsEmpty(d, d.dentries[k]);
      DropEvolves(d, ParentOf(cs), k);
    }
    if NS.Rmdir(d, cs).1.Done? {
      var k := Slot(Walk(d, ROOT, ParentOf(cs)).value, NameOf(cs));
      NS.RemoveDirIsDrop(d, k);
      DropEvolves(d, ParentOf(cs), k);
    }
  }

  // ---- The overlay's calls ----

  lemma RoundExtends(o: Layers, x: Components, mode: int, stale: set<Components>)
    requires Plain(o.delta) && Clean(x) && x != []
    ensures Plain(EnsureDir(o, x, mode, stale).0.delta) && Extends(o.delta, EnsureDir(o, x, mode, stale).0.delta)
  {
    MkdirExtends(o.delta, x, mode);
  }

  lemma {:induction false} OverlayMkdirAllExtends(o: Layers, p: Components, i: nat, mode: int, stale: set<Components>)
    requires Plain(o.delta) && Clean(p) && i <= |p|
    ensures Plain(MkdirAllFrom(o, p, i, mode, stale).0.delta)
    ensures Extends(o.delta, MkdirAllFrom(o, p, i, mode, stale).0.delta)
    decreases |p| - i
  {
    if i < |p| {
      var x := p[..i + 1];
      assert forall c :: c in x ==> c in p;
      RoundExtends(o, x, mode, stale);
      var (o1, r) := EnsureDir(o, x, mode, stale);
      if r.Done? {
        OverlayMkdirAllExtends(o1, p, i + 1, mode, stale);
        ExtendsTwice(o.delta, o1.delta, MkdirAllFrom(o1, p, i + 1, mode, stale).0.delta);
        assert MkdirAllFrom(o, p, i, mode, stale) == MkdirAllFrom(o1, p, i + 1, mode, stale);
      } else {
        assert MkdirAllFrom(o, p, i, mode, stale) == (o1, r);
      }
    }
  }

  lemma OverlayWriteExtends(o: Layers, p: Components, data: Bytes, mode: int, stale: set<Components>)
    requires Inv(o) && Clean(p) && p != []
    ensures Extends(o.delta, WriteFile(o, p, data, mode, stale).0.delta)
  {
    UpIsParent(p);
    WriteOpens(o, p, data, mode, stale);
    OverlayMkdirAllExtends(o, Up(p), 0, 0x1ed, stale);
    var d := MkdirAll(o, Up(p), 0x1ed, stale).0.delta;
    WriteExtends(d, p, data, mode);
    ExtendsTwice(o.delta, d, NS.WriteFile(d, p, data, mode).0);
  }

  lemma {:induction false} ParentsExtend(o: Layers, p: Components, i: nat)
    requires Inv(o) && Clean(p) && i < |p| && Shown(o, p).Some? && View(o.delta, p[..i]) == Some(Dir)
    ensures Extends(o.delta, EnsureParentsFrom(o, p, i).0.delta)
    decreases |p| - i
  {
    if i + 1 < |p| {
      var x := p[..i + 1];
      assert Up(x) == p[..i] && x <= p;
      assert forall c :: c in x ==> c in p;
      ShownPrefix(o, x, p);
      assert o.whiteouts - {x} == o.whiteouts;
      ViewExists(o.delta, Up(x));
      ViewExists(o.delta, x);
      if Walk(o.delta, ROOT, x).Some? {
        ParentsExtend(o, p, i + 1);
      } else {
        ParentExtends(o, p, i);
      }
    }
  }

  lemma ParentExtends(o: Layers, p: Components, i: nat)
    requires Inv(o) && Clean(p) && i + 1 < |p| && Shown(o, p).Some? && View(o.delta, p[..i]) == Some(Dir)
    requires Shown(o, p[..i + 1]) == Some(Dir) && Walk(o.delta, ROOT, p[..i + 1]).None?
    ensures Extends(o.delta, EnsureParentsFrom(o, p, i).0.delta)
    decreases |p| - i, 0
  {
    var o1 := CopiedParent(o, p, i);
    ParentsExtend(o1, p, i + 1);
    ExtendsTwice(o.delta, o1.delta, EnsureParentsFrom(o1, p, i + 1).0.delta);
  }

  lemma CopiedParent(o: Layers, p: Components, i: nat) returns (o1: Layers)
    requires Inv(o) && Clean(p) && i + 1 < |p| && Shown(o, p).Some? && View(o.delta, p[..i]) == Some(Dir)
    requires Shown(o, p[..i + 1]) == Some(Dir) && Walk(o.delta, ROOT, p[..i + 1]).None?
    ensures Inv(o1) && Shown(o1, p).Some? && View(o1.delta, p[..i + 1]) == Some(Dir)
    ensures Extends(o.delta, o1.delta) && EnsureParentsFrom(o, p, i) == EnsureParentsFrom(o1, p, i + 1)
  {
    var x := p[..i + 1];
    assert Up(x) == p[..i];
    assert forall c :: c in x ==> c in p;
    ViewExists(o.delta, Up(x));
    var k := Slot(Walk(o.delta, ROOT, Up(x)).value, NameOf(x));
    o1 := o.(delta := Create(o.delta, k, DIR, NewAttr(0x1ed), 0, 0, None));
    CopyDirLaw(o, x, k.parent);
    CopiedDirExtends(o, x, k);
    WhiteoutExists(o.whiteouts, x);
    assert o.whiteouts - {x} == o.whiteouts;
  }

  lemma CopiedDirExtends(o: Layers, x: Components, k: Slot)
    requires Plain(o.delta) && Clean(x) && x != [] && Walk(o.delta, ROOT, x).None?
    requires Walk(o.delta, ROOT, Up(x)) == Some(k.parent) && IsDir(o.delta, k.parent) && k.name == NameOf(x)
    ensures Extends(o.delta, Create(o.delta, k, DIR, NewAttr(0x1ed), 0, 0, None))
  {
    UpIsParent(x);
    ViewOfSlot(o.delta, x, k.parent);
    CreateExtends(o.delta, Up(x), k, DIR, NewAttr(0x1ed), 0);
  }

  lemma CopyUpExtends(o: Layers, p: Components)
    requires Inv(o) && Clean(p) && p != [] && Shown(o, p).Some? && Shown(o, p).value.File?
    ensures Extends(o.delta, CopyUp(o, p).0.delta)
  {
    ViewExists(o.delta, p);
    if Walk(o.delta, ROOT, p).None? {
      ParentsThenPlace(o, p);
      assert CopyUp(o, p) == PlaceCopy(EnsureParentsFrom(o, p, 0).0, p, o.base[p]);
    } else {
      assert CopyUp(o, p) == (o, NS.Done);
    }
  }

  lemma ParentsThenPlace(o: Layers, p: Components)
    requires Inv(o) && Clean(p) && p != [] && View(o.delta, p).None? && Shown(o, p).Some? && Shown(o, p).value.File?
    ensures EnsureParentsFrom(o, p, 0).1.Done?
    ensures Extends(o.delta, PlaceCopy(EnsureParentsFrom(o, p, 0).0, p, o.base[p]).0.delta)
  {
    ViewExists(o.delta, []);
    assert p[..0] == [];
    ParentsExtend(o, p, 0);
    EnsureParentsLaw(o, p, 0);
    var o1 := EnsureParentsFrom(o, p, 0).0;
    PlaceExtends(o1, p, o.base[p]);
    ExtendsTwice(o.delta, o1.delta, PlaceCopy(o1, p, o.base[p]).0.delta);
  }

  lemma PlaceExtends(o: Layers, p: Components, file: Node)
    requires Plain(o.delta) && Clean(p) && p != [] && file.File?
    requires View(o.delta, Up(p)) == Some(Dir) && View(o.delta, p).None?
    ensures Extends(o.delta, PlaceCopy(o, p, file).0.delta)
  {
    UpIsParent(p);
    ViewExists(o.delta, Up(p));
    ViewExists(o.delta, p);
    var k := Slot(Walk(o.delta, ROOT, Up(p)).value, NameOf(p));
    ViewOfSlot(o.delta, p, k.parent);
    var c := Create(o.delta, k, REG, file.attr, |file.data|, 0, None);
    CreateExtends(o.delta, Up(p), k, REG, file.attr, |file.data|);
    PutDataExtends(c, o.delta.nextIno, file.data);
    ExtendsTwice(o.delta, c, PutData(c, o.delta.nextIno, file.data));
  }

  lemma OverlayMkdirExtends(o: Layers, p: Components, mode: int)
    requires Plain(o.delta) && Clean(p) && p != []
    ensures Extends(o.delta, Mkdir(o, p, mode).0.delta)
  {
    MkdirExtends(o.delta, p, mode);
  }

  lemma UnlinkEvolves(o: Layers, p: Components)
    requires Plain(o.delta) && Clean(p) && p != []
    ensures Evolves(o.delta, Unlink(o, p).0.delta)
  {
    RemovalEvolves(o.delta, p);
  }

  lemma RmdirEvolves(o: Layers, p: Components)
    requires Plain(o.delta) && Clean(p) && p != []
    ensures Evolves(o.delta, Rmdir(o, p).0.delta)
  {
    RemovalEvolves(o.delta, p);
  }

  // No call moves a delta inode or uses a number twice; only Unlink and Rmdir take inodes away.
  lemma CallEvolves(o: Layers, op: OverlayOp)
    requires Inv(o) && Sound(o, op)
    ensures Evolves(o.delta, Do(o, op).0.delta)
    ensures op.DoUnlink? || op.DoRmdir? || KeepsInodes(o.delta, Do(o, op).0.delta)
  {
    match op
    case DoWriteFile(p, data, mode, stale) => OverlayWriteExtends(o, p, data, mode, stale);
    case DoMkdir(p, mode) => OverlayMkdirExtends(o, p, mode);
    case DoMkdirAll(p, mode, stale) => OverlayMkdirAllExtends(o, p, 0, mode, stale);
    case DoUnlink(p) => UnlinkEvolves(o, p);
    case DoRmdir(p) => RmdirEvolves(o, p);
    case DoCopyUp(p) => CopyUpExtends(o, p);
  }

  // ---- What a call shows anew ----

  // What MkdirAll shows anew is in the delta afterwards, or its record is good.
  lemma MkdirAllReveals(o: Layers, p: Components, mode: int, stale: set<Components>, q: Components)
    requires Inv(o) && Clean(p) && StopsClear(o, p, StopFrom(o, p, 0, stale))
    requires Shown(o, q).None? && Shown(MkdirAll(o, p, mode, stale).0, q).Some?
    ensures View(MkdirAll(o, p, mode, stale).0.delta, q) == Some(Dir) || q !in stale
  {
    var k := StopFrom(o, p, 0, stale);
    PassedNone(o, p, stale);
    var passed := MkdirAllPasses(o, o, p, 0, mode, stale);
    assert EndsAt(passed, p, k, MkdirAll(o, p, mode, stale));
    MkdirAllExactly(o, p, mode, stale);
    OnlyNext(o, p, k);
    assert Within(q, p, k);
    assert q == p[..|q|];
  }

  lemma GoneFromShorter(d: State, d1: State, q: Components)
    requires Plain(d) && Plain(d1) && Extends(d, d1) && View(d1, q).None?
    ensures View(d, q).None?
  {
    ViewExists(d, q);
    ViewExists(d1, q);
    if Walk(d, ROOT, q).Some? { PathInode(d, q); }
  }

  lemma WriteReveals(o: Layers, p: Components, data: Bytes, mode: int, stale: set<Components>, q: Components)
    requires Inv(o) && Sound(o, DoWriteFile(p, data, mode, stale))
    requires Shown(o, q).None? && Shown(WriteFile(o, p, data, mode, stale).0, q).Some?
    requires View(WriteFile(o, p, data, mode, stale).0.delta, q).None?
    ensures q !in stale
  {
    UpIsParent(p);
    var o1, o2 := WriteFile(o, p, data, mode, stale).0, MkdirAll(o, Up(p), 0x1ed, stale).0;
    OverlayMkdirAllExtends(o, Up(p), 0, 0x1ed, stale);
    WriteOpens(o, p, data, mode, stale);
    WriteExtends(o2.delta, p, data, mode);
    PlainView.WriteFileExactly(o2.delta, p, data, mode);
    if WriteFile(o, p, data, mode, stale).1.Done? {
      WriteFileLaw(o2.delta, p, data, mode);
      GoneFromShorter(o2.delta, o1.delta, q);
      WriteRevealsAbove(o, p, data, mode, stale, q);
    } else {
      GoneFromShorter(o2.delta, o1.delta, q);
      FailedWriteExactly(o, p, data, mode, stale);
    }
    MkdirAllReveals(o, Up(p), 0x1ed, stale, q);
  }

  lemma WriteRevealsAbove(o: Layers, p: Components, data: Bytes, mode: int, stale: set<Components>, q: Components)
    requires Inv(o) && Clean(p) && p != [] && WriteFile(o, p, data, mode, stale).1.Done?
    requires Shown(o, q).None? && Shown(WriteFile(o, p, data, mode, stale).0, q).Some?
    requires View(WriteFile(o, p, data, mode, stale).0.delta, q).None?
    ensures StopsClear(o, Up(p), StopFrom(o, Up(p), 0, stale))
    ensures Shown(MkdirAll(o, Up(p), 0x1ed, stale).0, q).Some?
  {
    UpIsParent(p);
    WriteSucceedsExactly(o, p, data, mode, stale);
    OverlayExact.WriteFileExactly(o, p, data, mode, stale);
    MkdirAllExactly(o, Up(p), 0x1ed, stale);
    WroteInDelta(o, p, data, mode, stale);
    assert q != p && q <= p;
    assert q == Up(p)[..|q|] && Within(q, Up(p), |Up(p)|);
  }

  lemma WroteInDelta(o: Layers, p: Components, data: Bytes, mode: int, stale: set<Components>)
    requires Inv(o) && Clean(p) && p != [] && WriteFile(o, p, data, mode, stale).1.Done?
    ensures View(WriteFile(o, p, data, mode, stale).0.delta, p).Some?
  {
    WriteOpens(o, p, data, mode, stale);
    OverlayMkdirAllExtends(o, Up(p), 0, 0x1ed, stale);
    UpIsParent(p);
    WriteFileLaw(MkdirAll(o, Up(p), 0x1ed, stale).0.delta, p, data, mode);
  }

  lemma MkdirReveals(o: Layers, p: Components, mode: int, q: Components)
    requires Inv(o) && Sound(o, DoMkdir(p, mode)) && Shown(o, q).None? && Shown(Mkdir(o, p, mode).0, q).Some?
    ensures View(Mkdir(o, p, mode).0.delta, q).Some?
  {
    if Mkdir(o, p, mode).1.Done? {
      MkdirLawful(o, p, mode);
      MkdirLaw(o.delta, p, mode);
    } else {
      FailedMkdirExactly(o, p, mode);
    }
  }

  // A base path that a sound call shows anew, without putting it into the delta.
  ghost predicate RevealedBy(o: Layers, op: OverlayOp, q: Components) {
    Shown(o, q).None? && Shown(Do(o, op).0, q).Some? && View(Do(o, op).0.delta, q).None?
  }

  lemma ByWrite(o: Layers, op: OverlayOp, q: Components)
    requires Inv(o) && Sound(o, op) && op.DoWriteFile? && RevealedBy(o, op, q)
    ensures q !in op.stale
  {
    WriteReveals(o, op.path, op.data, op.mode, op.stale, q);
  }

  lemma ByMkdirAll(o: Layers, op: OverlayOp, q: Components)
    requires Inv(o) && Sound(o, op) && op.DoMkdirAll? && RevealedBy(o, op, q)
    ensures q !in op.stale
  {
    MkdirAllExactly(o, op.path, op.mode, op.stale);
    MkdirAllReveals(o, op.path, op.mode, op.stale, q);
  }

  lemma ByMkdir(o: Layers, op: OverlayOp, q: Components)
    requires Inv(o) && Sound(o, op) && op.DoMkdir?
    ensures !RevealedBy(o, op, q)
  {
    if RevealedBy(o, op, q) {
      MkdirReveals(o, op.path, op.mode, q);
    }
  }

  lemma ByCopyUp(o: Layers, op: OverlayOp, q: Components)
    requires Inv(o) && Sound(o, op) && op.DoCopyUp?
    ensures !RevealedBy(o, op, q)
  {
    CopyUpLawful(o, op.path);
    assert Do(o, op).0 == CopyUp(o, op.path).0;
    assert Shown(CopyUp(o, op.path).0, q) == Shown(o, q);
  }

  // Such a path was not stale.
  lemma RevealsFresh(o: Layers, op: OverlayOp, q: Components)
    requires Inv(o) && Sound(o, op) && RevealedBy(o, op, q)
    ensures (op.DoWriteFile? || op.DoMkdirAll?) && q !in op.stale
  {
    match op
    case DoWriteFile(_, _, _, _) => ByWrite(o, op, q);
    case DoMkdir(_, _) => ByMkdir(o, op, q);
    case DoMkdirAll(_, _, _) => ByMkdirAll(o, op, q);
    case DoUnlink(_) => RemovalReveals(o, op, q);
    case DoRmdir(_) => RemovalReveals(o, op, q);
    case DoCopyUp(_) => ByCopyUp(o, op, q);
  }

  lemma RemovalReveals(o: Layers, op: OverlayOp, q: Components)
    requires Inv(o) && (op.DoUnlink? || op.DoRmdir?) && Clean(op.path) && op.path != [] && Shown(o, q).None?
    ensures Shown(Do(o, op).0, q).None?
  {
    if Do(o, op).1.Failed? {
      FailedRemovalHarmless(o, op);
    } else if op.DoUnlink? {
      UnlinkLawful(o, op.path);
    } else {
      RmdirLawful(o, op.path);
    }
  }

  // The call takes q out of the delta, where it was.
  ghost predicate Takes(o: Layers, op: OverlayOp, q: Components) {
    match op
    case DoUnlink(p) => q == p && Shown(o, p).Some? && Shown(o, p).value.File?
    case DoRmdir(p) => q == p && Shown(o, p) == Some(Dir) && forall n :: Shown(o, p + [n]).None?
    case _ => false
  }

  lemma UnlinkLeaves(o: Layers, p: Components, q: Components)
    requires Inv(o) && Clean(p) && p != []
    ensures View(Unlink(o, p).0.delta, q) == if Takes(o, DoUnlink(p), q) then None else View(o.delta, q)
  {
    UnlinkLaw(o.delta, p);
    UnlinkLawful(o, p);
    LookupPathShown(o, p);
    if Takes(o, DoUnlink(p), p) {
      NotBlocked(o, p);
    }
  }

  lemma RmdirLeaves(o: Layers, p: Components, q: Components)
    requires Inv(o) && Clean(p) && p != []
    ensures View(Rmdir(o, p).0.delta, q) == if Takes(o, DoRmdir(p), q) then None else View(o.delta, q)
  {
    RmdirLawful(o, p);
    LookupPathShown(o, p);
    if Rmdir(o, p).1.Done? {
      NotBlocked(o, p);
      RmdirDelta(o, p);
    } else {
      FailedRemovalHarmless(o, DoRmdir(p));
    }
  }

  lemma RemovalTakes(o: Layers, op: OverlayOp, q: Components)
    requires Inv(o) && (op.DoUnlink? || op.DoRmdir?) && Clean(op.path) && op.path != []
    requires View(o.delta, q).Some? && View(Do(o, op).0.delta, q).None?
    ensures Shown(Do(o, op).0, q).None?
  {
    if op.DoUnlink? {
      UnlinkLeaves(o, op.path, q);
      UnlinkLawful(o, op.path);
    } else {
      RmdirLeaves(o, op.path, q);
      RmdirLawful(o, op.path);
    }
  }

  // What a call takes out of the delta is not shown afterwards.
  lemma TakenNotShown(o: Layers, op: OverlayOp, q: Components)
    requires Inv(o) && Sound(o, op) && View(o.delta, q).Some? && View(Do(o, op).0.delta, q).None?
    ensures Shown(Do(o, op).0, q).None?
  {
    OverlayRuns.StepRefines(o, op);
    CallEvolves(o, op);
    if op.DoUnlink? || op.DoRmdir? {
      RemovalTakes(o, op, q);
    } else {
      GoneFromShorter(o.delta, Do(o, op).0.delta, q);
    }
  }
}
