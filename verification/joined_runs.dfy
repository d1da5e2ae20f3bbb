// Runs of the overlay with its inode maps: no path that is shown is ever stale, so LookupPath always
// answers what is shown.
module JoinedRuns {
  import opened Common
  import opened Paths
  import opened ChunkStore
  import opened Tables
  import opened Resolution
  import NS = Namespace
  import opened PlainView
  import opened Overlay
  import opened OverlayLaws
  import opened OverlayExact
  import opened OverlayRuns
  import opened OverlayJoin
  import opened DeltaEvolution
  import I = OverlayInodes

  ghost function StalePaths(m: Mount): set<Components> {
    set p | p in m.ino && Stale(m, p)
  }

  // No path that is stale is shown.
  ghost predicate Fresh(m: Mount) {
    forall p :: Stale(m, p) ==> IsWhiteout(m.o.whiteouts, p)
  }

  // The call as it runs: what LookupPath misses right after a whiteout is removed are the paths
  // that are stale.
  function WithStale(op: OverlayOp, stale: set<Components>): OverlayOp {
    match op
    case DoWriteFile(p, data, mode, _) => DoWriteFile(p, data, mode, stale)
    case DoMkdirAll(p, mode, _) => DoMkdirAll(p, mode, stale)
    case _ => op
  }

  // A lookup, one entry of a listing, a call on the layers, or a new mount over the layers as they are.
  datatype JoinOp =
    | Look(path: Components)
    | ListEntry(path: Components, fromBase: bool)
    | Act(op: OverlayOp)
    | Remount

  // New delta inodes may get origin records, of the base inode at their path.
  ghost predicate OriginsAdded(m: Mount, m1: Mount) {
    && (forall d :: d in m.n.origin ==> d in m1.n.origin && m1.n.origin[d] == m.n.origin[d])
    && (forall d :: d in m1.n.origin && d !in m.n.origin ==> m.n.deltaNext <= d < m1.n.deltaNext)
    && (forall p :: Walk(m1.o.delta, ROOT, p).Some? && Walk(m1.o.delta, ROOT, p).value !in m.n.origin ==> OriginFits(m1, p))
  }

  ghost predicate Acts(m: Mount, op: OverlayOp, m1: Mount) {
    && Sound(m.o, op) && m1.o == Do(m.o, op).0 && m1.ino == m.ino
    && m1.n == m.n.(origin := m1.n.origin, deltaNext := m1.o.delta.nextIno)
    && OriginsAdded(m, m1)
  }

  // Init loads the whiteouts and origin records again; the numbers handed out are gone.
  function Remounted(m: Mount): Mount {
    m.(n := I.Mounted(m.n.origin, m.n.deltaNext))
  }

  ghost predicate Next(m: Mount, j: JoinOp, m1: Mount) {
    match j
    case Look(p) => m1 == m.(n := LookupByInodes(m, p).0)
    case ListEntry(p, fromBase) =>
      if fromBase then p in m.ino && m1 == m.(n := I.List(m.n, I.InBase(m.ino[p]), p).0)
      else EntryAt(m, p).Some? && m1 == m.(n := I.List(m.n, EntryAt(m, p).value, p).0)
    case Act(op) => Acts(m, WithStale(op, StalePaths(m)), m1)
    case Remount => m1 == Remounted(m)
  }

  // ---- Each step keeps the maps joined to the layers ----

  lemma ListBaseKeeps(m: Mount, p: Components)
    requires Joined(m) && p in m.ino
    ensures var m1 := m.(n := I.List(m.n, I.InBase(m.ino[p]), p).0); Joined(m1) && SameStale(m, m1)
  {
    var k := I.Key(I.LayerBase, m.ino[p]);
    I.ListKeeps(m.n, I.InBase(m.ino[p]), p);
    if k !in m.n.reverse {
      NewNumber(m, k, p);
    }
  }

  lemma ListDeltaKeeps(m: Mount, p: Components)
    requires Joined(m) && EntryAt(m, p).Some?
    ensures var m1 := m.(n := I.List(m.n, EntryAt(m, p).value, p).0); Joined(m1) && SameStale(m, m1)
  {
    var at := Walk(m.o.delta, ROOT, p);
    if at.None? {
      ListBaseKeeps(m, p);
    } else if at.value in m.n.origin {
      assert OriginFits(m, p);
      assert I.List(m.n, I.InDelta(at.value), p) == I.List(m.n, I.InBase(m.ino[p]), p);
      ListBaseKeeps(m, p);
    } else {
      LookupMade(m, p, at.value);
    }
  }

  lemma ActRecords(m: Mount, m1: Mount)
    requires Joined(m) && Plain(m1.o.delta) && m1.ino == m.ino && Evolves(m.o.delta, m1.o.delta)
    requires m1.n == m.n.(origin := m1.n.origin, deltaNext := m1.o.delta.nextIno) && OriginsAdded(m, m1)
    ensures RecordsFit(m1) && NumbersRecorded(m1) && RootRecorded(m1) && forall p :: OriginFits(m1, p)
  {
    forall x | x in m1.n.inodeMap
      ensures RecordFits(m1, m1.n.inodeMap[x])
    {
      var k := m.n.inodeMap[x].key;
      assert RecordFits(m, m.n.inodeMap[x]);
      assert k in m.n.reverse;
    }
    forall p
      ensures OriginFits(m1, p)
    {
      assert OriginFits(m, p);
      if Walk(m1.o.delta, ROOT, p).Some? { PathInode(m1.o.delta, p); }
    }
  }

  lemma ActNumbers(n: I.Numbers, n1: I.Numbers)
    requires I.Inv(n) && n1 == n.(origin := n1.origin, deltaNext := n1.deltaNext) && n.deltaNext <= n1.deltaNext
    requires forall d :: d in n.origin ==> d in n1.origin && n1.origin[d] == n.origin[d]
    requires forall d :: d in n1.origin && d !in n.origin ==> n.deltaNext <= d < n1.deltaNext
    ensures I.Inv(n1)
  {
    forall k | k in n.reverse
      ensures I.CanonicalKey(n1, k) == I.CanonicalKey(n, k)
    {
    }
  }

  lemma ActKeepsJoined(m: Mount, op: OverlayOp, m1: Mount)
    requires Joined(m) && Acts(m, op, m1)
    ensures Joined(m1)
  {
    OverlayRuns.StepRefines(m.o, op);
    CallEvolves(m.o, op);
    SameBase(m.o, op);
    ActRecords(m, m1);
    ActNumbers(m.n, m1.n);
  }

  lemma SameBase(o: Layers, op: OverlayOp)
    requires Inv(o) && Sound(o, op)
    ensures Do(o, op).0.base == o.base
  {
    match op
    case DoWriteFile(p, data, mode, stale) => WriteSameBase(o, p, data, mode, stale);
    case DoMkdir(p, mode) => MkdirSameBase(o, p, mode);
    case DoMkdirAll(p, mode, stale) => MkdirAllExactly(o, p, mode, stale);
    case DoUnlink(p) => UnlinkSameBase(o, p);
    case DoRmdir(p) => RmdirSameBase(o, p);
    case DoCopyUp(p) => CopyUpLawful(o, p);
  }

  lemma MkdirSameBase(o: Layers, p: Components, mode: int)
    ensures Mkdir(o, p, mode).0.base == o.base
  {
  }

  lemma UnlinkSameBase(o: Layers, p: Components)
    ensures Unlink(o, p).0.base == o.base
  {
  }

  lemma RmdirSameBase(o: Layers, p: Components)
    ensures Rmdir(o, p).0.base == o.base
  {
  }

  lemma WriteSameBase(o: Layers, p: Components, data: Bytes, mode: int, stale: set<Components>)
    requires Inv(o) && Clean(p) && p != []
    ensures WriteFile(o, p, data, mode, stale).0.base == o.base
  {
    UpIsParent(p);
    WriteOpens(o, p, data, mode, stale);
    MkdirAllExactly(o, Up(p), 0x1ed, stale);
  }

  // ---- Nothing shown becomes stale ----

  // A path that is stale after a call, and was not in the delta, was stale before.
  lemma StaleBefore(m: Mount, m1: Mount, q: Components)
    requires Joined(m) && m1.ino == m.ino && m1.n.reverse == m.n.reverse && m1.n.inodeMap == m.n.inodeMap
    requires Stale(m1, q) && Walk(m.o.delta, ROOT, q).None?
    ensures Stale(m, q)
  {
    RecordOfBase(m, q);
  }

  lemma ActKeepsFresh(m: Mount, op: OverlayOp, m1: Mount, q: Components)
    requires Joined(m) && Fresh(m) && Joined(m1) && Acts(m, op, m1) && Stale(m1, q)
    requires op.DoWriteFile? || op.DoMkdirAll? ==> op.stale == StalePaths(m)
    ensures IsWhiteout(m1.o.whiteouts, q)
  {
    ViewExists(m.o.delta, q);
    ViewExists(m1.o.delta, q);
    if !IsWhiteout(m1.o.whiteouts, q) {
      assert Shown(m1.o, q).Some?;
      if View(m.o.delta, q).Some? {
        TakenNotShown(m.o, op, q);
      } else {
        StaleBefore(m, m1, q);
        assert RevealedBy(m.o, op, q);
        RevealsFresh(m.o, op, q);
      }
      assert false;
    }
  }

  // A new mount over the layers as a run left them has no stale path.
  lemma RemountSane(m: Mount)
    requires Joined(m)
    ensures Joined(Remounted(m)) && Fresh(Remounted(m))
  {
    RemountJoined(m);
    assert forall p :: !Stale(Remounted(m), p);
  }

  lemma RemountJoined(m: Mount)
    requires Joined(m)
    ensures Joined(Remounted(m))
  {
    var m1 := Remounted(m);
    assert InodeValid(m.o.delta, ROOT);
    I.MountedInv(m.n.origin, m.n.deltaNext);
    forall p
      ensures OriginFits(m1, p)
    {
      assert OriginFits(m, p);
    }
  }

  lemma ActKeeps(m: Mount, op: OverlayOp, m1: Mount)
    requires Joined(m) && Fresh(m) && Acts(m, op, m1)
    requires op.DoWriteFile? || op.DoMkdirAll? ==> op.stale == StalePaths(m)
    ensures Joined(m1) && Fresh(m1)
  {
    ActKeepsJoined(m, op, m1);
    forall q | Stale(m1, q)
      ensures IsWhiteout(m1.o.whiteouts, q)
    {
      ActKeepsFresh(m, op, m1, q);
    }
  }

  lemma NextKeeps(m: Mount, j: JoinOp, m1: Mount)
    requires Joined(m) && Fresh(m) && Next(m, j, m1)
    ensures Joined(m1) && Fresh(m1)
  {
    match j
    case Look(p) => LookupByInodesExactly(m, p);
    case ListEntry(p, fromBase) => if fromBase { ListBaseKeeps(m, p); } else { ListDeltaKeeps(m, p); }
    case Act(op) => ActKeeps(m, WithStale(op, StalePaths(m)), m1);
    case Remount => RemountSane(m);
  }

  // ---- Runs ----

  ghost predicate Trace(ms: seq<Mount>, js: seq<JoinOp>) {
    |ms| == |js| + 1 && forall i :: 0 <= i < |js| ==> NextAt(ms, js, i)
  }

  ghost predicate NextAt(ms: seq<Mount>, js: seq<JoinOp>, i: nat)
    requires |ms| == |js| + 1 && i < |js|
  {
    Next(ms[i], js[i], ms[i + 1])
  }

  ghost predicate Sane(m: Mount) { Joined(m) && Fresh(m) }

  // What every step keeps holds along a whole trace.
  lemma {:induction false} KeptAlong<M, J>(ms: seq<M>, js: seq<J>, step: (M, J, M) -> bool, good: M -> bool, i: nat)
    requires |ms| == |js| + 1 && i < |ms| && good(ms[0])
    requires forall k :: 0 <= k < |js| ==> step(ms[k], js[k], ms[k + 1])
    requires forall m, j, m1 :: good(m) && step(m, j, m1) ==> good(m1)
    ensures good(ms[i])
    decreases i
  {
    if i > 0 {
      KeptAlong(ms, js, step, good, i - 1);
      assert step(ms[i - 1], js[i - 1], ms[i]);
    }
  }

  lemma TraceKeeps(ms: seq<Mount>, js: seq<JoinOp>, i: nat)
    requires Trace(ms, js) && Sane(ms[0]) && i < |ms|
    ensures Sane(ms[i])
  {
    var step := (m, j, m1) => Next(m, j, m1);
    var good := m => Sane(m);
    forall m, j, m1 | good(m) && step(m, j, m1)
      ensures good(m1)
    {
      SaneNext(m, j, m1);
    }
    forall k | 0 <= k < |js|
      ensures step(ms[k], js[k], ms[k + 1])
    {
      assert NextAt(ms, js, k);
    }
    KeptAlong(ms, js, step, good, i);
  }

  lemma SaneNext(m: Mount, j: JoinOp, m1: Mount)
    requires Sane(m) && Next(m, j, m1)
    ensures Sane(m1)
  {
    NextKeeps(m, j, m1);
  }

  // In every run of lookups, listings and sound calls, LookupPath through the inode maps answers
  // exactly what the overlay shows.
  lemma LookupsShowAlways(ms: seq<Mount>, js: seq<JoinOp>, i: nat, p: Components)
    requires Trace(ms, js) && Sane(ms[0]) && i < |ms|
    ensures var o := ms[i].o;
      LookupByInodes(ms[i], p).1 == if Shown(o, p).None? then Err(ENOENT) else Ok(Shown(o, p) == Some(Dir))
  {
    TraceKeeps(ms, js, i);
    LookupByInodesExactly(ms[i], p);
    LookupPathShown(ms[i].o, p);
  }

  // The lookup that a round of MkdirAll does right after it removed a whiteout answers through the
  // inode maps what the round takes it to answer.
  lemma UncoveredLookup(m: Mount, x: Components)
    requires Sane(m) && x != [] && Shown(m.o, Up(x)) == Some(Dir)
    ensures var m1 := m.(o := RemoveWhiteout(m.o, x));
      LookupByInodes(m1, x).1 == LookupUncovered(m1.o, x, x in m.o.whiteouts, StalePaths(m))
  {
    var m1 := m.(o := RemoveWhiteout(m.o, x));
    UncoverLaw(m.o, x);
    assert Joined(m1) by {
      forall y | y in m1.n.inodeMap
        ensures RecordFits(m1, m1.n.inodeMap[y])
      {
        assert RecordFits(m, m.n.inodeMap[y]);
      }
      forall p
        ensures OriginFits(m1, p)
      {
        assert OriginFits(m, p);
      }
    }
    LookupByInodesExactly(m1, x);
    assert Stale(m1, x) <==> Stale(m, x);
  }

  // A fresh mount over any base without hard links.
  lemma MountJoined(base: map<Components, Node>, ino: map<Components, int>, chunkSize: Positive, mode: int)
    requires BaseValid(base) && ino.Keys == base.Keys
    requires forall p, q :: p in ino && q in ino && ino[p] == ino[q] ==> p == q
    ensures var m := Mount(Layers(base, Initial(chunkSize, mode), {}), I.Mounted(map[], 2), ino);
      Sane(m)
  {
    var m := Mount(Layers(base, Initial(chunkSize, mode), {}), I.Mounted(map[], 2), ino);
    FreshMount(base, chunkSize, mode);
    I.MountedInv(map[], 2);
  }
}
