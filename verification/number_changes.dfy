// What becomes of the inode number of a path: told for every call from the layers and maps before it.
module NumberChanges {
  import opened Common
  import opened Paths
  import opened ChunkStore
  import opened Tables
  import opened Resolution
  import NS = Namespace
  import opened PlainView
  import opened Overlay
  import opened OverlayLaws
  import opened OverlayExact
  import opened OverlayRuns
  import opened OverlayJoin
  import opened DeltaEvolution
  import opened JoinedRuns
  import I = OverlayInodes

  // ---- What a call puts into the delta ----

  // A round of MkdirAll makes the directory q.
  ghost predicate RoundMakes(o: Layers, p: Components, stale: set<Components>, q: Components) {
    Within(q, p, StopFrom(o, p, 0, stale)) && !FindsDir(o, q, stale)
  }

  // The delta's own WriteFile makes the directory q on its way to p, whether or not it gets there.
  ghost predicate CopyMakes(o: Layers, p: Components, stale: set<Components>, q: Components)
    requires p != []
  {
    && StopFrom(o, Up(p), 0, stale) == |p| - 1 && !NS.NameTooLong(p) && |q| < |p|
    && forall j :: 0 < j <= |q| ==> View(o.delta, p[..j]) == Some(Dir) || !NS.NameTooLong(p[..j])
  }

  ghost predicate MkdirGoes(o: Layers, p: Components)
    requires p != []
  {
    !NS.NameTooLong(p) && View(o.delta, Up(p)) == Some(Dir) && Shown(o, p).None?
  }

  // The call puts q into the delta, where it was not.
  ghost predicate Puts(o: Layers, op: OverlayOp, q: Components)
    requires op.path != []
  {
    match op
    case DoWriteFile(p, _, _, stale) =>
      if WriteGoes(o, p, stale) then q <= p else q <= p && (RoundMakes(o, Up(p), stale, q) || CopyMakes(o, p, stale, q))
    case DoMkdir(p, _) => q == p && MkdirGoes(o, p)
    case DoMkdirAll(p, _, stale) => RoundMakes(o, p, stale, q)
    case DoCopyUp(p) => q <= p && View(o.delta, p).None?
    case _ => false
  }

  lemma MkdirAllPuts(o: Layers, p: Components, mode: int, stale: set<Components>, q: Components)
    requires Inv(o) && Clean(p) && View(o.delta, q).None?
    ensures View(MkdirAll(o, p, mode, stale).0.delta, q).Some? <==> RoundMakes(o, p, stale, q)
  {
    var k := StopFrom(o, p, 0, stale);
    PassedNone(o, p, stale);
    var passed := MkdirAllPasses(o, o, p, 0, mode, stale);
    assert EndsAt(passed, p, k, MkdirAll(o, p, mode, stale));
    ViewExists(o.delta, []);
    if Within(q, p, k) {
      assert q == p[..|q|];
      assert Shown(passed, q) == Some(Dir);
    }
  }

  lemma MkdirPuts(o: Layers, p: Components, mode: int, q: Components)
    requires Inv(o) && Clean(p) && p != [] && View(o.delta, q).None?
    ensures View(Mkdir(o, p, mode).0.delta, q).Some? <==> q == p && MkdirGoes(o, p)
  {
    MkdirLawful(o, p, mode);
    MkdirLaw(o.delta, p, mode);
  }

  lemma WritePuts(o: Layers, p: Components, data: Bytes, mode: int, stale: set<Components>, q: Components)
    requires Inv(o) && Clean(p) && p != [] && WriteGoes(o, p, stale) && View(o.delta, q).None?
    ensures View(WriteFile(o, p, data, mode, stale).0.delta, q).Some? <==> q <= p
  {
    WriteSucceedsExactly(o, p, data, mode, stale);
    UpIsParent(p);
    WriteOpens(o, p, data, mode, stale);
    MkdirAllPuts(o, Up(p), 0x1ed, stale, q);
    var o2 := MkdirAll(o, Up(p), 0x1ed, stale).0;
    MkdirAllExactly(o, Up(p), 0x1ed, stale);
    WriteFileLaw(o2.delta, p, data, mode);
    assert Within(q, Up(p), |p| - 1) ==> q <= p;
  }

  lemma FailedWritePuts(o: Layers, p: Components, data: Bytes, mode: int, stale: set<Components>, q: Components)
    requires Inv(o) && Clean(p) && p != [] && !WriteGoes(o, p, stale) && View(o.delta, q).None?
    ensures View(WriteFile(o, p, data, mode, stale).0.delta, q).Some? <==>
      q <= p && (RoundMakes(o, Up(p), stale, q) || CopyMakes(o, p, stale, q))
  {
    WriteSucceedsExactly(o, p, data, mode, stale);
    UpIsParent(p);
    WriteOpens(o, p, data, mode, stale);
    MkdirAllPuts(o, Up(p), 0x1ed, stale, q);
    MkdirAllDone(o, Up(p), 0x1ed, stale);
    ViewExists(o.delta, []);
    assert RoundMakes(o, Up(p), stale, q) ==> q <= p;
    if StopFrom(o, Up(p), 0, stale) == |p| - 1 {
      var m := OpenedParent(o, p, stale);
      FailedWriteMakes(m.delta, p, data, mode, q);
      FitsOpened(o, m, p, stale);
    }
  }

  lemma FitsOpened(o: Layers, m: Layers, p: Components, stale: set<Components>)
    requires p != [] && StopFrom(o, Up(p), 0, stale) == |p| - 1 && Passed(o, m, Up(p), |p| - 1, stale)
    ensures forall j :: 0 < j < |p| ==> (Fits(m.delta, p[..j]) <==> View(o.delta, p[..j]) == Some(Dir) || !NS.NameTooLong(p[..j]))
  {
    forall j | 0 < j < |p|
      ensures Fits(m.delta, p[..j]) <==> View(o.delta, p[..j]) == Some(Dir) || !NS.NameTooLong(p[..j])
    {
      FitsAfter(o, m, p, j, stale);
    }
  }

  // ---- What copy-up puts into the delta ----

  lemma {:induction false} ParentsPutAbove(o: Layers, p: Components, i: nat, q: Components)
    requires Inv(o) && Clean(p) && i < |p| && Shown(o, p).Some? && View(o.delta, p[..i]) == Some(Dir) && !(q <= p)
    ensures View(EnsureParentsFrom(o, p, i).0.delta, q) == View(o.delta, q)
    decreases |p| - i
  {
    if i + 1 < |p| {
      var x := p[..i + 1];
      assert Up(x) == p[..i] && x <= p;
      ShownPrefix(o, x, p);
      assert o.whiteouts - {x} == o.whiteouts;
      ViewExists(o.delta, Up(x));
      ViewExists(o.delta, x);
      if Walk(o.delta, ROOT, x).Some? {
        ParentsPutAbove(o, p, i + 1, q);
      } else {
        var parent := Walk(o.delta, ROOT, Up(x)).value;
        CopyDirLaw(o, x, parent);
        var d := Create(o.delta, Slot(parent, NameOf(x)), DIR, NewAttr(0x1ed), 0, 0, None);
        ParentsPutAbove(o.(delta := d), p, i + 1, q);
      }
    }
  }

  lemma PlacePuts(o: Layers, p: Components, file: Node, q: Components)
    requires Plain(o.delta) && Clean(p) && p != [] && file.File? && q != p
    requires View(o.delta, Up(p)) == Some(Dir) && View(o.delta, p).None?
    ensures View(PlaceCopy(o, p, file).0.delta, q) == View(o.delta, q)
  {
    UpIsParent(p);
    ViewExists(o.delta, Up(p));
    ViewExists(o.delta, p);
    var k := Slot(Walk(o.delta, ROOT, Up(p)).value, NameOf(p));
    ViewOfSlot(o.delta, p, k.parent);
    StoreNewLaw(o.delta, p, file.data, file.attr, k);
  }

  lemma CopyUpPuts(o: Layers, p: Components, q: Components)
    requires Inv(o) && Clean(p) && p != [] && Shown(o, p).Some? && Shown(o, p).value.File? && View(o.delta, q).None?
    ensures View(CopyUp(o, p).0.delta, q).Some? <==> q <= p && View(o.delta, p).None?
  {
    ViewExists(o.delta, p);
    CopyUpLawful(o, p);
    if Walk(o.delta, ROOT, p).Some? {
      assert CopyUp(o, p) == (o, NS.Done);
    } else if q <= p {
      if q != p { ViewParent(CopyUp(o, p).0.delta, q, p); }
    } else {
      ViewExists(o.delta, []);
      assert p[..0] == [];
      ParentsThenPlace(o, p);
      EnsureParentsLaw(o, p, 0);
      ParentsPutAbove(o, p, 0, q);
      var o1 := EnsureParentsFrom(o, p, 0).0;
      PlacePuts(o1, p, o.base[p], q);
      assert CopyUp(o, p) == PlaceCopy(o1, p, o.base[p]);
    }
  }

  // ---- What a call puts into the delta, and what it takes out ----

  // A path enters the delta exactly as told from the layers before the call.
  lemma PutsExactly(o: Layers, op: OverlayOp, q: Components)
    requires Inv(o) && Sound(o, op) && View(o.delta, q).None?
    ensures View(Do(o, op).0.delta, q).Some? <==> Puts(o, op, q)
  {
    match op
    case DoWriteFile(p, data, mode, stale) =>
      if WriteGoes(o, p, stale) {
        WritePuts(o, p, data, mode, stale, q);
      } else {
        FailedWritePuts(o, p, data, mode, stale, q);
      }
    case DoMkdir(p, mode) => MkdirPuts(o, p, mode, q);
    case DoMkdirAll(p, mode, stale) => MkdirAllPuts(o, p, mode, stale, q);
    case DoUnlink(p) => UnlinkLeaves(o, p, q);
    case DoRmdir(p) => RmdirLeaves(o, p, q);
    case DoCopyUp(p) => CopyUpPuts(o, p, q);
  }

  // A path leaves the delta exactly as told from the layers before the call.
  lemma TakesExactly(o: Layers, op: OverlayOp, q: Components)
    requires Inv(o) && Sound(o, op) && View(o.delta, q).Some?
    ensures View(Do(o, op).0.delta, q).None? <==> Takes(o, op, q)
  {
    match op
    case DoUnlink(p) => UnlinkLeaves(o, p, q);
    case DoRmdir(p) => RmdirLeaves(o, p, q);
    case _ =>
      OverlayRuns.StepRefines(o, op);
      CallEvolves(o, op);
      if View(Do(o, op).0.delta, q).None? {
        GoneFromShorter(o.delta, Do(o, op).0.delta, q);
      }
  }

  // ---- The number of a path ----

  // The number that a lookup of p answers with.
  ghost function NumberAt(m: Mount, p: Components): int
    requires EntryAt(m, p).Some?
  {
    I.Lookup(m.n, EntryAt(m, p).value, p).1
  }

  lemma NumberKeptAt(m: Mount, m1: Mount, p: Components)
    requires Joined(m) && Joined(m1) && EntryAt(m, p).Some? && EntryAt(m1, p).Some?
    requires I.Canonical(m.n, EntryAt(m, p).value) in m.n.reverse
    requires m1.n.reverse == m.n.reverse && m.n.deltaNext <= m1.n.deltaNext && OriginsAdded(m, m1)
    ensures NumberAt(m1, p) == NumberAt(m, p) <==>
      I.Canonical(m1.n, EntryAt(m1, p).value) == I.Canonical(m.n, EntryAt(m, p).value)
  {
    LiveEntry(m, p);
    LiveEntry(m1, p);
    NumberKept(m.n, m1.n, EntryAt(m, p).value, EntryAt(m1, p).value, p);
  }

  lemma NumberKept(n: I.Numbers, n1: I.Numbers, e: I.Entry, e1: I.Entry, p: Components)
    requires I.Inv(n) && I.Inv(n1) && I.Live(n, e) && I.Live(n1, e1)
    requires n1.reverse == n.reverse && n.deltaNext <= n1.deltaNext && I.Canonical(n, e) in n.reverse
    requires forall d :: d in n1.origin && d !in n.origin ==> n.deltaNext <= d
    requires forall d :: d in n.origin ==> d in n1.origin && n1.origin[d] == n.origin[d]
    ensures I.Lookup(n1, e1, p).1 == I.Lookup(n, e, p).1 <==> I.Canonical(n1, e1) == I.Canonical(n, e)
  {
    I.LookupKeeps(n, e, p);
    I.LookupKeeps(n1, e1, p);
    var n2 := I.Lookup(n1, e1, p).0;
    var c, c1 := I.Canonical(n, e), I.Canonical(n1, e1);
    assert n2.reverse[c] == n.reverse[c] == I.Lookup(n, e, p).1;
    assert I.CanonicalKey(n2, c1) == c1 by { CanonicalTwice(n2, n1, e1); }
    assert I.CanonicalKey(n2, c) == c by { KeptKey(n, n2, e); }
  }

  lemma LiveEntry(m: Mount, p: Components)
    requires Joined(m) && EntryAt(m, p).Some?
    ensures I.Live(m.n, EntryAt(m, p).value)
  {
    if Walk(m.o.delta, ROOT, p).Some? { PathInode(m.o.delta, p); }
  }

  lemma CanonicalTwice(n1: I.Numbers, n: I.Numbers, e: I.Entry)
    requires I.Extends(n, n1) && I.Live(n, e)
    ensures I.CanonicalKey(n1, I.Canonical(n, e)) == I.Canonical(n, e)
  {
  }

  lemma KeptKey(n: I.Numbers, n1: I.Numbers, e: I.Entry)
    requires I.Live(n, e) && n.deltaNext <= n1.deltaNext
    requires forall d :: d in n1.origin && d !in n.origin ==> n.deltaNext <= d
    ensures I.CanonicalKey(n1, I.Canonical(n, e)) == I.Canonical(n, e)
  {
  }

  // The copies of a copy-up get origin records; no other call makes any.
  ghost predicate OriginsAsMade(m: Mount, op: OverlayOp, m1: Mount) {
    if op.DoCopyUp? then forall d :: m.n.deltaNext <= d < m1.n.deltaNext ==> d in m1.n.origin
    else m1.n.origin == m.n.origin
  }

  // The number of p goes over to another inode: a base entry gets an inode of its own in the delta, or
  // a delta inode that is no copy goes.
  ghost predicate Renumbers(m: Mount, op: OverlayOp, p: Components)
    requires op.path != []
  {
    var at := Walk(m.o.delta, ROOT, p);
    if at.Some? then Takes(m.o, op, p) && at.value !in m.n.origin
    else !op.DoCopyUp? && Puts(m.o, op, p)
  }

  // The canonical key of an entry that stays in the delta, or goes, or comes.
  lemma KeyAfter(m: Mount, op: OverlayOp, m1: Mount, p: Components)
    requires Joined(m) && Joined(m1) && Acts(m, op, m1) && OriginsAsMade(m, op, m1)
    requires EntryAt(m, p).Some? && EntryAt(m1, p).Some?
    ensures I.Canonical(m1.n, EntryAt(m1, p).value) != I.Canonical(m.n, EntryAt(m, p).value) <==> Renumbers(m, op, p)
  {
    CallEvolves(m.o, op);
    ViewExists(m.o.delta, p);
    ViewExists(m1.o.delta, p);
    assert OriginFits(m, p) && OriginFits(m1, p);
    if Walk(m.o.delta, ROOT, p).Some? {
      KeyOfDelta(m, op, m1, p);
    } else {
      KeyOfBase(m, op, m1, p);
    }
  }

  lemma KeyOfDelta(m: Mount, op: OverlayOp, m1: Mount, p: Components)
    requires Joined(m) && Joined(m1) && Acts(m, op, m1) && OriginsAsMade(m, op, m1) && Evolves(m.o.delta, m1.o.delta)
    requires op.DoUnlink? || op.DoRmdir? || KeepsInodes(m.o.delta, m1.o.delta)
    requires Walk(m.o.delta, ROOT, p).Some? && EntryAt(m1, p).Some? && OriginFits(m, p)
    ensures I.Canonical(m1.n, EntryAt(m1, p).value) != I.Canonical(m.n, EntryAt(m, p).value) <==> Renumbers(m, op, p)
  {
    TakenExactly(m, op, m1, p);
    if Walk(m1.o.delta, ROOT, p).Some? {
      if op.DoUnlink? || op.DoRmdir? { RemovalMakesNone(m.o, op); }
      StaysThere(m.o.delta, m1.o.delta, p);
      PathInode(m.o.delta, p);
      SameKey(m, m1, Walk(m.o.delta, ROOT, p).value);
    }
  }

  lemma TakenExactly(m: Mount, op: OverlayOp, m1: Mount, p: Components)
    requires Joined(m) && Joined(m1) && Acts(m, op, m1) && Walk(m.o.delta, ROOT, p).Some?
    ensures Walk(m1.o.delta, ROOT, p).None? <==> Takes(m.o, op, p)
  {
    ViewExists(m.o.delta, p);
    ViewExists(m1.o.delta, p);
    TakesExactly(m.o, op, p);
  }

  // Origin records are added for new delta inodes only.
  lemma SameKey(m: Mount, m1: Mount, d: int)
    requires OriginsAdded(m, m1) && d < m.n.deltaNext
    ensures I.Canonical(m1.n, I.InDelta(d)) == I.Canonical(m.n, I.InDelta(d))
  {
  }

  lemma RemovalMakesNone(o: Layers, op: OverlayOp)
    requires op.DoUnlink? || op.DoRmdir?
    ensures Do(o, op).0.delta.nextIno == o.delta.nextIno
  {
  }

  // A path in the delta before and after a call has the inode it had.
  lemma StaysThere(d: State, d1: State, p: Components)
    requires Plain(d) && Plain(d1) && Evolves(d, d1) && (KeepsInodes(d, d1) || d1.nextIno == d.nextIno)
    requires Walk(d, ROOT, p).Some? && Walk(d1, ROOT, p).Some?
    ensures Walk(d1, ROOT, p) == Walk(d, ROOT, p)
  {
    PathInode(d, p);
    PathInode(d1, p);
  }

  lemma KeyOfBase(m: Mount, op: OverlayOp, m1: Mount, p: Components)
    requires Joined(m) && Joined(m1) && Acts(m, op, m1) && OriginsAsMade(m, op, m1) && Evolves(m.o.delta, m1.o.delta)
    requires Walk(m.o.delta, ROOT, p).None? && p in m.ino && OriginFits(m1, p)
    ensures I.Canonical(m1.n, EntryAt(m1, p).value) != I.Canonical(m.n, EntryAt(m, p).value) <==> Renumbers(m, op, p)
  {
    ViewExists(m.o.delta, p);
    ViewExists(m1.o.delta, p);
    PutsExactly(m.o, op, p);
    if Walk(m1.o.delta, ROOT, p).Some? {
      PathInode(m1.o.delta, p);
      if !op.DoCopyUp? { MovedEntry(m, m1, p); }
    }
  }

  lemma MovedEntry(m: Mount, m1: Mount, q: Components)
    requires Joined(m) && Evolves(m.o.delta, m1.o.delta) && m1.n.origin == m.n.origin
    requires Walk(m.o.delta, ROOT, q).None? && q in m.ino && Walk(m1.o.delta, ROOT, q).Some?
    ensures I.Canonical(m1.n, EntryAt(m1, q).value) != I.Canonical(m.n, EntryAt(m, q).value)
  {
    var d := Walk(m1.o.delta, ROOT, q).value;
    assert d in m.n.origin ==> d < m.n.deltaNext;
  }

  // Whether a path keeps its number, told from the layers and the maps before the call.
  lemma NumberAfterCall(m: Mount, op: OverlayOp, m1: Mount, p: Components)
    requires Joined(m) && Acts(m, op, m1) && OriginsAsMade(m, op, m1)
    requires EntryAt(m, p).Some? && I.Canonical(m.n, EntryAt(m, p).value) in m.n.reverse
    ensures EntryAt(m1, p).None? <==> Takes(m.o, op, p) && p !in m.ino
    ensures EntryAt(m1, p).Some? ==> (NumberAt(m1, p) != NumberAt(m, p) <==> Renumbers(m, op, p))
  {
    ActKeepsJoined(m, op, m1);
    CallEvolves(m.o, op);
    ViewExists(m.o.delta, p);
    ViewExists(m1.o.delta, p);
    if Walk(m.o.delta, ROOT, p).Some? { TakesExactly(m.o, op, p); }
    if EntryAt(m1, p).Some? {
      NumberKeptAt(m, m1, p);
      KeyAfter(m, op, m1, p);
    }
  }

  // A successful WriteFile changes the numbers of exactly the entries on its path that only the
  // base has: the file itself, and every directory above it.
  lemma WriteMovesNumbers(m: Mount, op: OverlayOp, m1: Mount, p: Components)
    requires Joined(m) && Acts(m, op, m1) && op.DoWriteFile? && m1.n.origin == m.n.origin && Do(m.o, op).1.Done?
    requires EntryAt(m, p).Some? && I.Canonical(m.n, EntryAt(m, p).value) in m.n.reverse
    ensures EntryAt(m1, p).Some?
    ensures NumberAt(m1, p) != NumberAt(m, p) <==> p <= op.path && Walk(m.o.delta, ROOT, p).None?
  {
    NumberAfterCall(m, op, m1, p);
    WriteSucceedsExactly(m.o, op.path, op.data, op.mode, op.stale);
  }
}
