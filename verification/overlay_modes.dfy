// The mode of every directory that the overlay makes.
module OverlayModes {
  import opened Common
  import opened Paths
  import opened ChunkStore
  import opened Tables
  import opened Resolution
  import NS = Namespace
  import opened PlainView
  import opened Overlay
  import opened OverlayLaws
  import opened OverlayExact
  import opened OverlayRuns
  import opened DeltaEvolution

  // A directory of t that is none of s has this mode and is owned by 0:0; the others are as they
  // were.
  ghost predicate DirsHave(s: State, t: State, mode: int) {
    forall i :: IsDir(t, i) ==> t.inodes[i] == if IsDir(s, i) then s.inodes[i] else Inode(DIR, NewAttr(mode), 1, 0, 0)
  }

  // The same, with no directory gone.
  ghost predicate DirsMade(s: State, t: State, mode: int) {
    DirsHave(s, t, mode) && forall i :: IsDir(s, i) ==> IsDir(t, i)
  }

  lemma HaveTwice(s: State, t: State, u: State, mode: int)
    requires DirsMade(s, t, mode) && DirsMade(t, u, mode)
    ensures DirsMade(s, u, mode)
  {
  }

  lemma CreateHas(s: State, k: Slot, fileType: int, attr: Attr, size: int, mode: int)
    requires Valid(s) && (fileType == DIR ==> attr == NewAttr(mode) && size == 0)
    ensures DirsMade(s, Create(s, k, fileType, attr, size, 0, None), mode)
  {
    FreshIno(s);
  }

  lemma PutHas(s: State, ino: int, data: Bytes, mode: int)
    requires ino in s.inodes && !IsDir(s, ino)
    ensures DirsMade(s, PutData(s, ino, data), mode)
  {
  }

  lemma MkdirHas(s: State, cs: Components, mode: int)
    requires Valid(s)
    ensures DirsMade(s, NS.Mkdir(s, cs, mode).0, mode)
  {
    if NS.Mkdir(s, cs, mode).1.Done? {
      CreateHas(s, Slot(Lookup(s, ParentOf(cs)).value, NameOf(cs)), DIR, NewAttr(mode), 0, mode);
    }
  }

  lemma {:induction false} MkdirAllHas(s: State, cs: Components, i: nat, mode: int)
    requires Valid(s) && i <= |cs|
    ensures DirsMade(s, NS.MkdirAllFrom(s, cs, i, mode).0, mode)
    decreases |cs| - i
  {
    if i < |cs| {
      var x := Renormalize(cs[..i + 1]);
      MkdirHas(s, x, mode);
      NS.EnsureDirKeeps(s, x, mode);
      var (t, r) := NS.EnsureDir(s, x, mode);
      if r.Done? {
        MkdirAllHas(t, cs, i + 1, mode);
        HaveTwice(s, t, NS.MkdirAllFrom(t, cs, i + 1, mode).0, mode);
      }
    }
  }

  lemma WriteHas(s: State, cs: Components, data: Bytes, mode: int)
    requires Valid(s)
    ensures DirsMade(s, NS.WriteFile(s, cs, data, mode).0, 0x1ed)
  {
    var t := NS.MkdirAll(s, ParentOf(cs), 0x1ed).0;
    MkdirAllHas(s, ParentOf(cs), 0, 0x1ed);
    NS.MkdirAllFromKeeps(s, ParentOf(cs), 0, 0x1ed);
    var (v, r) := NS.WriteFile(s, cs, data, mode);
    if r.Done? {
      var k := Slot(Lookup(t, ParentOf(cs)).value, NameOf(cs));
      if k in t.dentries {
        PutHas(t, t.dentries[k], data, 0x1ed);
      } else {
        var c := Create(t, k, REG, NewAttr(mode), |data|, 0, None);
        CreateHas(t, k, REG, NewAttr(mode), |data|, 0x1ed);
        PutHas(c, t.nextIno, data, 0x1ed);
        HaveTwice(t, c, v, 0x1ed);
      }
      HaveTwice(s, t, v, 0x1ed);
    }
  }

  lemma RemovalHas(s: State, cs: Components, mode: int)
    requires Valid(s)
    ensures DirsHave(s, NS.Unlink(s, cs).0, mode) && DirsHave(s, NS.Rmdir(s, cs).0, mode)
  {
  }

  // ---- The overlay's calls ----

  lemma RoundHas(o: Layers, x: Components, mode: int, stale: set<Components>)
    requires Valid(o.delta)
    ensures DirsMade(o.delta, EnsureDir(o, x, mode, stale).0.delta, mode)
  {
    MkdirHas(o.delta, x, mode);
  }

  lemma {:induction false} OverlayMkdirAllHas(o: Layers, p: Components, i: nat, mode: int, stale: set<Components>)
    requires Plain(o.delta) && Clean(p) && i <= |p|
    ensures DirsMade(o.delta, MkdirAllFrom(o, p, i, mode, stale).0.delta, mode)
    decreases |p| - i
  {
    if i < |p| {
      var x := p[..i + 1];
      assert forall c :: c in x ==> c in p;
      RoundExtends(o, x, mode, stale);
      RoundHas(o, x, mode, stale);
      var (o1, r) := EnsureDir(o, x, mode, stale);
      assert MkdirAllFrom(o, p, i, mode, stale) == if r.Failed? then (o1, r) else MkdirAllFrom(o1, p, i + 1, mode, stale);
      if r.Done? {
        OverlayMkdirAllHas(o1, p, i + 1, mode, stale);
        HaveTwice(o.delta, o1.delta, MkdirAllFrom(o1, p, i + 1, mode, stale).0.delta, mode);
      }
    }
  }

  lemma OverlayWriteHas(o: Layers, p: Components, data: Bytes, mode: int, stale: set<Components>)
    requires Inv(o) && Clean(p) && p != []
    ensures DirsMade(o.delta, WriteFile(o, p, data, mode, stale).0.delta, 0x1ed)
  {
    UpIsParent(p);
    WriteOpens(o, p, data, mode, stale);
    OverlayMkdirAllExtends(o, Up(p), 0, 0x1ed, stale);
    OverlayMkdirAllHas(o, Up(p), 0, 0x1ed, stale);
    var d := MkdirAll(o, Up(p), 0x1ed, stale).0.delta;
    WriteHas(d, p, data, mode);
    HaveTwice(o.delta, d, NS.WriteFile(d, p, data, mode).0, 0x1ed);
  }

  lemma {:induction false} ParentsHave(o: Layers, p: Components, i: nat)
    requires Inv(o) && Clean(p) && i < |p| && Shown(o, p).Some? && View(o.delta, p[..i]) == Some(Dir)
    ensures DirsMade(o.delta, EnsureParentsFrom(o, p, i).0.delta, 0x1ed)
    decreases |p| - i
  {
    if i + 1 < |p| {
      var x := p[..i + 1];
      assert Up(x) == p[..i] && x <= p;
      ShownPrefix(o, x, p);
      assert o.whiteouts - {x} == o.whiteouts;
      ViewExists(o.delta, Up(x));
      ViewExists(o.delta, x);
      if Walk(o.delta, ROOT, x).Some? {
        ParentsHave(o, p, i + 1);
      } else {
        var parent := Walk(o.delta, ROOT, Up(x)).value;
        CopyDirLaw(o, x, parent);
        var k := Slot(parent, NameOf(x));
        var d := Create(o.delta, k, DIR, NewAttr(0x1ed), 0, 0, None);
        CreateHas(o.delta, k, DIR, NewAttr(0x1ed), 0, 0x1ed);
        ParentsHave(o.(delta := d), p, i + 1);
        HaveTwice(o.delta, d, EnsureParentsFrom(o.(delta := d), p, i + 1).0.delta, 0x1ed);
      }
    }
  }

  lemma PlaceHas(o: Layers, p: Components, file: Node)
    requires Valid(o.delta) && p != [] && file.File?
    ensures DirsMade(o.delta, PlaceCopy(o, p, file).0.delta, 0x1ed)
  {
    var parent := Walk(o.delta, ROOT, Up(p));
    if parent.Some? {
      var k := Slot(parent.value, NameOf(p));
      var c := Create(o.delta, k, REG, file.attr, |file.data|, 0, None);
      CreateHas(o.delta, k, REG, file.attr, |file.data|, 0x1ed);
      PutHas(c, o.delta.nextIno, file.data, 0x1ed);
      HaveTwice(o.delta, c, PutData(c, o.delta.nextIno, file.data), 0x1ed);
    }
  }

  lemma CopyUpHas(o: Layers, p: Components)
    requires Inv(o) && Clean(p) && p != [] && Shown(o, p).Some? && Shown(o, p).value.File?
    ensures DirsMade(o.delta, CopyUp(o, p).0.delta, 0x1ed)
  {
    ViewExists(o.delta, p);
    if Walk(o.delta, ROOT, p).None? {
      ViewExists(o.delta, []);
      assert p[..0] == [];
      ParentsHave(o, p, 0);
      EnsureParentsLaw(o, p, 0);
      var o1 := EnsureParentsFrom(o, p, 0).0;
      PlaceHas(o1, p, o.base[p]);
      HaveTwice(o.delta, o1.delta, PlaceCopy(o1, p, o.base[p]).0.delta, 0x1ed);
      assert CopyUp(o, p) == PlaceCopy(o1, p, o.base[p]);
    } else {
      assert CopyUp(o, p) == (o, NS.Done);
    }
  }

  lemma OverlayMkdirHas(o: Layers, p: Components, mode: int)
    requires Valid(o.delta)
    ensures DirsMade(o.delta, Mkdir(o, p, mode).0.delta, mode)
  {
    MkdirHas(o.delta, p, mode);
  }

  lemma OverlayUnlinkHas(o: Layers, p: Components)
    requires Valid(o.delta)
    ensures DirsHave(o.delta, Unlink(o, p).0.delta, 0x1ed)
  {
    RemovalHas(o.delta, p, 0x1ed);
    assert Unlink(o, p).0.delta == o.delta || Unlink(o, p).0.delta == NS.Unlink(o.delta, p).0;
  }

  lemma OverlayRmdirHas(o: Layers, p: Components)
    requires Valid(o.delta)
    ensures DirsHave(o.delta, Rmdir(o, p).0.delta, 0x1ed)
  {
    RemovalHas(o.delta, p, 0x1ed);
    assert Rmdir(o, p).0.delta == o.delta || Rmdir(o, p).0.delta == NS.Rmdir(o.delta, p).0;
  }

  function ModeOf(op: OverlayOp): int {
    match op
    case DoMkdir(_, mode) => mode
    case DoMkdirAll(_, mode, _) => mode
    case _ => 0x1ed
  }

  // Whatever the call and however it ends: Mkdir and MkdirAll make directories with the mode asked
  // for, the other calls with 0755, and no call changes the row of a directory.
  lemma CallDirModes(o: Layers, op: OverlayOp)
    requires Inv(o) && Sound(o, op)
    ensures DirsHave(o.delta, Do(o, op).0.delta, ModeOf(op))
  {
    match op
    case DoWriteFile(p, data, mode, stale) => OverlayWriteHas(o, p, data, mode, stale);
    case DoMkdir(p, mode) => OverlayMkdirHas(o, p, mode);
    case DoMkdirAll(p, mode, stale) => OverlayMkdirAllHas(o, p, 0, mode, stale);
    case DoUnlink(p) => OverlayUnlinkHas(o, p);
    case DoRmdir(p) => OverlayRmdirHas(o, p);
    case DoCopyUp(p) => CopyUpHas(o, p);
  }
}
