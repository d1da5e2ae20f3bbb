// Readdir of the overlay: a listing by inode number, against what the overlay shows.
module Listing {
  import opened Common
  import opened Paths
  import opened Tables
  import opened Resolution
  import opened PlainView
  import opened Overlay
  import opened OverlayLaws
  import opened OverlayRuns
  import opened OverlayJoin
  import opened DeltaEvolution
  import opened JoinedRuns
  import I = OverlayInodes

  // ---- The operation ----

  // delta.Readdir of a path gives the name.
  predicate InDeltaListing(d: State, p: Components, name: string) {
    var at := Lookup(d, p);
    at.Ok? && IsDir(d, at.value) && Slot(at.value, name) in d.dentries
  }

  // The base directory of the record has the name, and no whiteout hides it.
  ghost predicate InBaseListing(m: Mount, info: I.Info, name: string) {
    var dir := BaseParent(m, info);
    && dir.Some? && BaseLookup(m, dir.value, name).Some?
    && !IsWhiteout(m.o.whiteouts, info.path + [name]) && info.path + [name] !in m.o.whiteouts
  }

  // Readdir
  ghost function Readdir(m: Mount, x: int): Result<iset<string>> {
    if x !in m.n.inodeMap then Err(ENOENT) else
      var info := m.n.inodeMap[x];
      Ok(iset name |
        || (info.key.layer == I.LayerDelta && InDeltaListing(m.o.delta, info.path, name))
        || InBaseListing(m, info, name))
  }

  // ---- What it lists ----

  lemma DeltaListed(d: State, p: Components, name: string)
    requires Plain(d) && Clean(p)
    ensures InDeltaListing(d, p, name) <==> View(d, p + [name]).Some?
  {
    LookupView(d, p);
    WalkSnoc(d, ROOT, p, name);
    ViewExists(d, p + [name]);
    if Walk(d, ROOT, p).Some? && Slot(Walk(d, ROOT, p).value, name) in d.dentries {
      assert SlotValid(d, Slot(Walk(d, ROOT, p).value, name));
    }
  }

  lemma BaseListed(m: Mount, info: I.Info, name: string)
    requires Joined(m) && RecordFits(m, info)
    ensures InBaseListing(m, info, name) <==> info.path + [name] in m.o.base && !IsWhiteout(m.o.whiteouts, info.path + [name])
  {
    BaseChild(m, info, info.path, name);
    WhiteoutExists(m.o.whiteouts, info.path + [name]);
  }

  // A listing by a number gives what is shown below the path of its record. If the record is of the
  // base, what only the delta has is missing.
  lemma ReaddirExactly(m: Mount, x: int, name: string)
    requires Joined(m) && x in m.n.inodeMap && Clean(m.n.inodeMap[x].path)
    ensures var info := m.n.inodeMap[x]; var c := info.path + [name];
      name in Readdir(m, x).value <==>
        Shown(m.o, c).Some? && (info.key.layer == I.LayerBase ==> c in m.o.base)
  {
    var info := m.n.inodeMap[x];
    var c := info.path + [name];
    assert RecordFits(m, info);
    DeltaListed(m.o.delta, info.path, name);
    BaseListed(m, info, name);
    if View(m.o.delta, c).Some? && IsWhiteout(m.o.whiteouts, c) {
      NothingUnderWhiteout(m.o, c);
    }
  }

  // A listing by the current number of a path gives exactly what is shown below it.
  lemma CurrentReaddir(m: Mount, x: int, p: Components, name: string)
    requires Joined(m) && Current(m, x, p) && Clean(p)
    ensures Readdir(m, x).Ok? && (name in Readdir(m, x).value <==> Shown(m.o, p + [name]).Some?)
  {
    ReaddirExactly(m, x, name);
    WalkSnoc(m.o.delta, ROOT, p, name);
    ViewExists(m.o.delta, p + [name]);
  }

  // In every run, the lookup of a shown path through the inode maps ends at a number whose listing
  // gives exactly what is shown below the path.
  lemma ListingsShowAlways(ms: seq<Mount>, js: seq<JoinOp>, i: nat, p: Components, name: string)
    requires Trace(ms, js) && Sane(ms[0]) && i < |ms| && Clean(p) && Shown(ms[i].o, p).Some?
    ensures var (n1, r) := LookupFrom(ms[i], ROOT, p, 0); var m1 := ms[i].(n := n1);
      && r.Ok? && Readdir(m1, r.value).Ok?
      && (name in Readdir(m1, r.value).value <==> Shown(ms[i].o, p + [name]).Some?)
  {
    TraceKeeps(ms, js, i);
    FoundIsCurrent(ms[i], p);
    var (n1, r) := LookupFrom(ms[i], ROOT, p, 0);
    CurrentReaddir(ms[i].(n := n1), r.value, p, name);
  }

  lemma FoundIsCurrent(m: Mount, p: Components)
    requires Joined(m) && Shown(m.o, p).Some?
    ensures var (n1, r) := LookupFrom(m, ROOT, p, 0); var m1 := m.(n := n1);
      Joined(m1) && r.Ok? && Current(m1, r.value, p)
  {
    assert p[..0] == [];
    assert Current(m, ROOT, []);
    ViewExists(m.o.delta, p);
    LookupFromLaw(m, ROOT, p, 0);
  }

  // The test of Rmdir: the listing by the number that the lookup found is empty exactly when nothing
  // is listed by path.
  lemma RmdirSeesEmpty(m: Mount, p: Components)
    requires Joined(m) && Clean(p) && Shown(m.o, p) == Some(Dir)
    ensures var (n1, r) := LookupFrom(m, ROOT, p, 0); var m1 := m.(n := n1);
      && r.Ok? && Readdir(m1, r.value).Ok?
      && (Readdir(m1, r.value).value == iset{} <==> ListsNothing(m.o, p))
  {
    FoundIsCurrent(m, p);
    var (n1, r) := LookupFrom(m, ROOT, p, 0);
    var m1 := m.(n := n1);
    forall name
      ensures Readdir(m1, r.value).Ok? && (name in Readdir(m1, r.value).value <==> Shown(m.o, p + [name]).Some?)
    {
      CurrentReaddir(m1, r.value, p, name);
    }
    ListsNothingShown(m.o, p);
    if Readdir(m1, r.value).value != iset{} {
      var name :| name in Readdir(m1, r.value).value;
      assert Shown(m.o, p + [name]).Some?;
    }
  }

  // A number that was looked up before a WriteFile put a file into a directory of the base: its
  // listing misses the file, which is shown.
  lemma OldNumberMissesFile(m: Mount, op: OverlayOp, m1: Mount, x: int)
    requires Sane(m) && Acts(m, op, m1) && op.DoWriteFile? && Do(m.o, op).1.Done?
    requires Current(m, x, Up(op.path)) && m.n.inodeMap[x].key.layer == I.LayerBase && op.path !in m.o.base
    ensures Shown(m1.o, op.path).Some?
    ensures Readdir(m1, x).Ok? && NameOf(op.path) !in Readdir(m1, x).value
  {
    var p := op.path;
    ActKeepsJoined(m, op, m1);
    SameBase(m.o, op);
    UpIsParent(p);
    WriteFileLawful(m.o, p, op.data, op.mode, op.stale);
    ReaddirExactly(m1, x, NameOf(p));
  }
}
