// The copy-on-write overlay: a writable delta over a read-only base, with whiteouts.
module Overlay {
  import opened Common
  import opened Paths
  import opened ChunkStore
  import opened Tables
  import opened Resolution
  import NS = Namespace
  import opened PlainView

  type Status = NS.Status

  // The base as the paths it holds, the delta's tables, and the whiteout paths.
  datatype Layers = Layers(base: map<Components, Node>, delta: State, whiteouts: set<Components>)

  function Up(p: Components): Components
    requires p != []
  {
    p[..|p| - 1]
  }

  predicate BasePathValid(base: map<Components, Node>, p: Components)
  {
    p in base && Clean(p) && (p != [] ==> Up(p) in base && base[Up(p)] == Dir)
  }

  ghost predicate BaseValid(base: map<Components, Node>) {
    && [] in base && base[[]] == Dir
    && forall p :: p in base ==> BasePathValid(base, p)
  }

  // ---- The operations ----

  // isWhiteout: the path or one of its ancestors.
  function IsWhiteout(whiteouts: set<Components>, p: Components): bool
    decreases |p|
  {
    p != [] && (p in whiteouts || IsWhiteout(whiteouts, Up(p)))
  }

  // LookupPath: delta first, then base; the answer is whether it is a directory.
  function LookupPath(o: Layers, p: Components): Result<bool> {
    if p == [] then Ok(true)
    else if IsWhiteout(o.whiteouts, p) then Err(ENOENT)
    else if Walk(o.delta, ROOT, p).Some? then Ok(IsDir(o.delta, Walk(o.delta, ROOT, p).value))
    else if p in o.base then Ok(o.base[p].Dir?)
    else Err(ENOENT)
  }

  // LookupPath right after the whiteout of p was removed. The inode map may still send a
  // base entry that was once copied up to a delta inode that is gone; then p is not found.
  function LookupUncovered(o: Layers, p: Components, uncovered: bool, stale: set<Components>): Result<bool> {
    if uncovered && p in stale && Walk(o.delta, ROOT, p).None? then Err(ENOENT) else LookupPath(o, p)
  }

  function RemoveWhiteout(o: Layers, p: Components): Layers {
    o.(whiteouts := o.whiteouts - {p})
  }

  ghost function ReadFile(o: Layers, p: Components): Result<Bytes> {
    var delta := ReadPath(o.delta, p);
    if IsWhiteout(o.whiteouts, p) then Err(ENOENT)
    else if delta != Err(ENOENT) then delta
    else if p !in o.base then Err(ENOENT)
    else if o.base[p].Dir? then Err(EISDIR)
    else Ok(o.base[p].data)
  }

  function Mkdir(o: Layers, p: Components, mode: int): (Layers, Status) {
    var wasWhiteout := IsWhiteout(o.whiteouts, p);
    var o1 := RemoveWhiteout(o, p);
    if !wasWhiteout && LookupPath(o1, p).Ok? then (o1, NS.Failed(EEXIST))
    else if wasWhiteout && Lookup(o1.delta, p).Ok? then (o1, NS.Failed(EEXIST))
    else
      var (d, r) := NS.Mkdir(o1.delta, p, mode);
      (o1.(delta := d), r)
  }

  // One round of MkdirAll.
  function EnsureDir(o: Layers, p: Components, mode: int, stale: set<Components>): (Layers, Status) {
    var o1 := RemoveWhiteout(o, p);
    match LookupUncovered(o1, p, p in o.whiteouts, stale)
    case Ok(isDir) => if isDir then (o1, NS.Done) else (o1, NS.Failed(ENOTDIR))
    case Err(e) =>
      if e != ENOENT then (o1, NS.Failed(e)) else
        var (d, r) := NS.Mkdir(o1.delta, p, mode);
        (o1.(delta := d), r)
  }

  function MkdirAllFrom(o: Layers, p: Components, i: nat, mode: int, stale: set<Components>): (Layers, Status)
    requires i <= |p|
    decreases |p| - i
  {
    if i == |p| then (o, NS.Done) else
      var (o1, r) := EnsureDir(o, p[..i + 1], mode, stale);
      if r.Failed? then (o1, r) else MkdirAllFrom(o1, p, i + 1, mode, stale)
  }

  function MkdirAll(o: Layers, p: Components, mode: int, stale: set<Components>): (Layers, Status) {
    MkdirAllFrom(o, p, 0, mode, stale)
  }

  // The part of WriteFile before the delta is written: the parent is a directory afterwards.
  function OpenParent(o: Layers, p: Components, stale: set<Components>): (Layers, Status) {
    var parent := ParentOf(p);
    if parent == [] then (o, NS.Done)
    else
      match LookupPath(o, parent)
      case Err(_) => MkdirAll(o, parent, 0x1ed, stale)
      case Ok(isDir) => if isDir then (o, NS.Done) else (o, NS.Failed(ENOTDIR))
  }

  function WriteFile(o: Layers, p: Components, data: Bytes, mode: int, stale: set<Components>): (Layers, Status) {
    var (o1, r) := OpenParent(RemoveWhiteout(o, p), p, stale);
    if r.Failed? then (o1, r) else
      var (d, written) := NS.WriteFile(o1.delta, p, data, mode);
      (o1.(delta := d), written)
  }

  // A whiteout covers what the base still has.
  function Cover(o: Layers, p: Components): Layers {
    if p in o.base then o.(whiteouts := o.whiteouts + {p}) else o
  }

  function Unlink(o: Layers, p: Components): (Layers, Status) {
    if p == [] then (o, NS.Failed(EPERM)) else
      match LookupPath(o, p)
      case Err(e) => (o, NS.Failed(e))
      case Ok(isDir) =>
        if isDir then (o, NS.Failed(EISDIR)) else
          var (d, r) := NS.Unlink(o.delta, p);
          if r.Failed? && r.errno != ENOENT then (o.(delta := d), r)
          else (Cover(o.(delta := d), p), NS.Done)
  }

  // Readdir gives no name: nothing in the delta directory, and every base child is whiteout.
  predicate ListsNothing(o: Layers, p: Components) {
    && (Walk(o.delta, ROOT, p).Some? ==> IsEmptyDir(o.delta, Walk(o.delta, ROOT, p).value))
    && (forall c :: c in o.base && c != [] && Up(c) == p ==> IsWhiteout(o.whiteouts, c))
  }

  function Rmdir(o: Layers, p: Components): (Layers, Status) {
    if p == [] then (o, NS.Failed(EPERM)) else
      match LookupPath(o, p)
      case Err(e) => (o, NS.Failed(e))
      case Ok(isDir) =>
        if !isDir then (o, NS.Failed(ENOTDIR))
        else if !ListsNothing(o, p) then (o, NS.Failed(ENOTEMPTY))
        else
          var (d, r) := NS.Rmdir(o.delta, p);
          if r.Failed? && r.errno != ENOENT then (o.(delta := d), r)
          else (Cover(o.(delta := d), p), NS.Done)
  }

  // ---- Meaning ----

  // What the overlay shows at a path.
  ghost function Shown(o: Layers, p: Components): Option<Node> {
    if IsWhiteout(o.whiteouts, p) then None
    else if View(o.delta, p).Some? then View(o.delta, p)
    else if p in o.base then Some(o.base[p])
    else None
  }

  // Every base child of p is whiteout.
  ghost predicate ChildrenCovered(o: Layers, p: Components) {
    forall c :: c in o.base && c != [] && Up(c) == p ==> c in o.whiteouts
  }

  ghost predicate FileInDelta(o: Layers, p: Components) {
    View(o.delta, p).Some? && View(o.delta, p).value.File?
  }

  // A whiteout covers a base entry and all its base children, and the delta has nothing at
  // it; the base children of a directory behind a delta file are covered too.
  ghost predicate Closed(o: Layers) {
    && (forall w :: w in o.whiteouts ==> w != [] && w in o.base && ChildrenCovered(o, w) && View(o.delta, w).None?)
    && (forall p :: FileInDelta(o, p) && p in o.base ==> ChildrenCovered(o, p))
  }

  ghost predicate Inv(o: Layers) {
    BaseValid(o.base) && Plain(o.delta) && Closed(o)
  }

  lemma {:induction false} WhiteoutExists(whiteouts: set<Components>, p: Components)
    ensures IsWhiteout(whiteouts, p) <==> exists w :: w in whiteouts && w != [] && w <= p
    decreases |p|
  {
    if p != [] {
      WhiteoutExists(whiteouts, Up(p));
      forall w | w in whiteouts && w != [] && w <= p
        ensures w == p || w <= Up(p)
      {
        if w != p {
          assert w == p[..|w|] == Up(p)[..|w|];
        }
      }
    }
  }

  // Everything the base has below a whiteout is whiteout itself.
  lemma {:induction false} CoveredBelow(o: Layers, p: Components)
    requires Inv(o) && p in o.base && IsWhiteout(o.whiteouts, p)
    ensures p in o.whiteouts
    decreases |p|
  {
    if p !in o.whiteouts {
      assert BasePathValid(o.base, p);
      CoveredBelow(o, Up(p));
      assert false;
    }
  }

  // The delta has nothing at or below a whiteout.
  lemma NothingUnderWhiteout(o: Layers, p: Components)
    requires Inv(o) && IsWhiteout(o.whiteouts, p)
    ensures View(o.delta, p).None?
  {
    WhiteoutExists(o.whiteouts, p);
    var w :| w in o.whiteouts && w != [] && w <= p;
    if View(o.delta, p).Some? && w != p {
      ViewParent(o.delta, w, p);
    }
  }

  // What is shown hangs below shown directories.
  lemma ShownParent(o: Layers, p: Components)
    requires Inv(o) && p != [] && Shown(o, p).Some?
    ensures Shown(o, Up(p)) == Some(Dir)
  {
    if View(o.delta, p).Some? {
      ViewParent(o.delta, Up(p), p);
    } else {
      assert BasePathValid(o.base, p);
      assert FileInDelta(o, Up(p)) ==> p in o.whiteouts;
    }
  }

  // LookupPath answers from what is shown.
  lemma LookupPathShown(o: Layers, p: Components)
    requires Inv(o)
    ensures LookupPath(o, p) ==
      if Shown(o, p).None? then Err(ENOENT) else Ok(Shown(o, p) == Some(Dir))
  {
    ViewExists(o.delta, p);
    if p == [] {
      assert View(o.delta, []) == Some(Dir);
    }
  }

  // A file on the way in the delta means the path is not shown.
  lemma BlockedNotShown(o: Layers, p: Components)
    requires Inv(o) && Blocked(o.delta, p)
    ensures Shown(o, p).None?
  {
    var i: nat :| BlockedAt(o.delta, p, i);
    var f := p[..i + 1];
    ViewExists(o.delta, f);
    WalkLive(o.delta, ROOT, f);
    if Shown(o, p).Some? {
      ShownPrefix(o, f, p);
      assert false;
    }
  }

  lemma {:induction false} ShownPrefix(o: Layers, f: Components, p: Components)
    requires Inv(o) && Shown(o, p).Some? && f <= p && f != p
    ensures Shown(o, f) == Some(Dir)
    decreases |p|
  {
    ShownParent(o, p);
    if f != Up(p) {
      assert f <= Up(p);
      ShownPrefix(o, f, Up(p));
    }
  }

  // ReadFile returns the bytes of exactly the files shown.
  lemma ReadFileShown(o: Layers, p: Components, data: Bytes)
    requires Inv(o) && Clean(p)
    ensures ReadFile(o, p) == Ok(data) <==>
      Shown(o, p).Some? && Shown(o, p).value.File? && Shown(o, p).value.data == data
  {
    ReadPathLaw(o.delta, p);
    if Blocked(o.delta, p) {
      BlockedNotShown(o, p);
    }
  }

  // ---- Copy-up ----

  // ensureParentDirs: the delta gets a directory for every component above the last.
  function EnsureParentsFrom(o: Layers, p: Components, i: nat): (Layers, Status)
    requires i < |p|
    decreases |p| - i
  {
    if i + 1 == |p| then (o, NS.Done) else
      var current := p[..i + 1];
      var o1 := RemoveWhiteout(o, current);
      var parent := Walk(o1.delta, ROOT, Up(current));
      var at := Walk(o1.delta, ROOT, current);
      if parent.None? then (o1, NS.Failed(ENOENT))
      else if at.Some? then
        if IsDir(o1.delta, at.value) then EnsureParentsFrom(o1, p, i + 1) else (o1, NS.Failed(ENOTDIR))
      else
        var d := Create(o1.delta, Slot(parent.value, NameOf(current)), DIR, NewAttr(0x1ed), 0, 0, None);
        EnsureParentsFrom(o1.(delta := d), p, i + 1)
  }

  // copyUp of a regular base file: parents, inode with the base attributes, data, dentry.
  function CopyUp(o: Layers, p: Components): (Layers, Status) {
    if p == [] then (o, NS.Failed(EPERM))
    else if Walk(o.delta, ROOT, p).Some? then (o, NS.Done)
    else if p !in o.base || o.base[p].Dir? then (o, NS.Failed(ENOENT))
    else
      var (o1, r) := EnsureParentsFrom(o, p, 0);
      if r.Failed? then (o1, r) else PlaceCopy(o1, p, o.base[p])
  }

  function PlaceCopy(o: Layers, p: Components, file: Node): (Layers, Status)
    requires p != [] && file.File?
  {
    var parent := Walk(o.delta, ROOT, Up(p));
    if parent.None? then (o, NS.Failed(ENOENT)) else
      var c := Create(o.delta, Slot(parent.value, NameOf(p)), REG, file.attr, |file.data|, 0, None);
      (o.(delta := PutData(c, o.delta.nextIno, file.data)), NS.Done)
  }
}

// Every successful overlay operation does to the shown tree what the same operation
// does to a plain directory tree.
module OverlayLaws {
  import opened Common
  import opened Paths
  import opened ChunkStore
  import opened Tables
  import opened Resolution
  import NS = Namespace
  import opened PlainView
  import opened RenamePaths
  import opened Overlay

  lemma UpIsParent(p: Components)
    requires Clean(p) && p != []
    ensures ParentOf(p) == Up(p) && Clean(Up(p)) && p == Up(p) + [NameOf(p)]
  {
    ParentOfClean(p);
  }

  // ---- Taking a whiteout away ----

  lemma UncoverLaw(o: Layers, x: Components)
    requires Inv(o) && x != [] && Shown(o, Up(x)) == Some(Dir)
    ensures var o1 := RemoveWhiteout(o, x);
      && Inv(o1) && !IsWhiteout(o1.whiteouts, x)
      && forall q :: q != x ==> Shown(o1, q) == Shown(o, q)
    ensures x !in o.whiteouts ==> RemoveWhiteout(o, x) == o
    ensures x in o.whiteouts ==> Shown(o, x).None?
  {
    var o1 := RemoveWhiteout(o, x);
    if x !in o.whiteouts {
      assert o.whiteouts - {x} == o.whiteouts;
    }
    WhiteoutExists(o.whiteouts, Up(x));
    WhiteoutExists(o1.whiteouts, Up(x));
    UncoverClosed(o, x);
    forall q | q != x
      ensures Shown(o1, q) == Shown(o, q)
    {
      UncoverOther(o, x, q);
    }
  }

  lemma UncoverClosed(o: Layers, x: Components)
    requires Inv(o) && x != [] && Shown(o, Up(x)) == Some(Dir)
    ensures Closed(RemoveWhiteout(o, x))
  {
    var o1 := RemoveWhiteout(o, x);
    forall p | ChildrenCovered(o, p) && p != Up(x)
      ensures ChildrenCovered(o1, p)
    {
    }
    WhiteoutExists(o.whiteouts, Up(x));
    assert Up(x) != [] ==> Up(x) !in o.whiteouts;
    assert !FileInDelta(o1, Up(x));
  }

  lemma UncoverOther(o: Layers, x: Components, q: Components)
    requires Inv(o) && q != x
    ensures Shown(RemoveWhiteout(o, x), q) == Shown(o, q)
  {
    var w1 := o.whiteouts - {x};
    WhiteoutExists(o.whiteouts, q);
    WhiteoutExists(w1, q);
    if IsWhiteout(o.whiteouts, q) {
      NothingUnderWhiteout(o, q);
      if q in o.base {
        CoveredBelow(o, q);
      }
    }
  }

  // ---- Adding to the delta ----

  // The delta has `node` at p, directories above it, and is unchanged elsewhere.
  ghost predicate DeltaGains(s: State, d: State, p: Components, node: Node) {
    forall q :: View(d, q) == (if q == p then Some(node) else if q <= p then Some(Dir) else View(s, q))
  }

  // With the parents shown as directories, gaining p shows p and nothing else; the overlay
  // stays closed exactly when no base child is left behind a file.
  lemma GainLaw(o: Layers, d: State, p: Components, node: Node)
    requires Inv(o) && Plain(d) && p != [] && DeltaGains(o.delta, d, p, node)
    requires !IsWhiteout(o.whiteouts, p)
    requires forall q :: q <= p && q != p ==> Shown(o, q) == Some(Dir)
    ensures var o1 := o.(delta := d);
      && (forall q :: Shown(o1, q) == if q == p then Some(node) else Shown(o, q))
      && (Inv(o1) <==> (node.File? && p in o.base ==> ChildrenCovered(o, p)))
  {
    forall q | q <= p
      ensures !IsWhiteout(o.whiteouts, q) && (q != p ==> !FileInDelta(o, q))
    {
      WhiteoutExists(o.whiteouts, p);
      WhiteoutExists(o.whiteouts, q);
      assert q != p ==> Shown(o, q) == Some(Dir);
    }
    GainShown(o, d, p, node);
    GainClosed(o, d, p, node);
  }

  lemma GainShown(o: Layers, d: State, p: Components, node: Node)
    requires DeltaGains(o.delta, d, p, node) && forall q :: q <= p ==> !IsWhiteout(o.whiteouts, q)
    requires forall q :: q <= p && q != p ==> Shown(o, q) == Some(Dir)
    ensures forall q :: Shown(o.(delta := d), q) == if q == p then Some(node) else Shown(o, q)
  {
  }

  lemma GainClosed(o: Layers, d: State, p: Components, node: Node)
    requires Inv(o) && Plain(d) && p != [] && DeltaGains(o.delta, d, p, node)
    requires forall q :: q <= p ==> !IsWhiteout(o.whiteouts, q) && (q != p ==> !FileInDelta(o, q))
    ensures Inv(o.(delta := d)) <==> (node.File? && p in o.base ==> ChildrenCovered(o, p))
  {
    var o1 := o.(delta := d);
    forall w | w in o.whiteouts
      ensures View(d, w).None?
    {
      WhiteoutExists(o.whiteouts, w);
    }
    forall q
      ensures FileInDelta(o1, q) <==> (if q == p then node.File? else FileInDelta(o, q))
    {
    }
    forall q
      ensures ChildrenCovered(o1, q) <==> ChildrenCovered(o, q)
    {
    }
  }

  // ---- Directories ----

  lemma EnsureDirLaw(o: Layers, x: Components, mode: int, stale: set<Components>)
    requires Inv(o) && Clean(x) && x != [] && Shown(o, Up(x)) == Some(Dir)
    requires EnsureDir(o, x, mode, stale).1.Done?
    ensures var o1 := EnsureDir(o, x, mode, stale).0;
      && Inv(o1) && o1.whiteouts == o.whiteouts - {x} && o1.base == o.base
      && (forall q :: Shown(o1, q) == if q == x then Some(Dir) else Shown(o, q))
    ensures Shown(o, x).None? || Shown(o, x) == Some(Dir)
  {
    UncoverLaw(o, x);
    UpIsParent(x);
    var o1 := RemoveWhiteout(o, x);
    LookupPathShown(o, x);
    LookupPathShown(o1, x);
    ViewExists(o1.delta, x);
    var look := LookupUncovered(o1, x, x in o.whiteouts, stale);
    if look.Err? {
      MkdirLaw(o1.delta, x, mode);
      MkdirGains(o1, x, mode);
    }
  }

  // A delta Mkdir of a path whose parents are shown.
  lemma MkdirGains(o: Layers, x: Components, mode: int)
    requires Inv(o) && Clean(x) && x != [] && Shown(o, Up(x)) == Some(Dir) && !IsWhiteout(o.whiteouts, x)
    requires NS.Mkdir(o.delta, x, mode).1.Done?
    ensures var o1 := o.(delta := NS.Mkdir(o.delta, x, mode).0);
      && Inv(o1)
      && forall q :: Shown(o1, q) == if q == x then Some(Dir) else Shown(o, q)
  {
    UpIsParent(x);
    MkdirLaw(o.delta, x, mode);
    var d := NS.Mkdir(o.delta, x, mode).0;
    forall q | q <= x && q != x
      ensures View(o.delta, q) == Some(Dir) && Shown(o, q) == Some(Dir)
    {
      if q != Up(x) {
        assert q <= Up(x);
        ViewParent(o.delta, q, Up(x));
        ShownPrefix(o, q, Up(x));
      }
    }
    assert DeltaGains(o.delta, d, x, Dir);
    GainLaw(o, d, x, Dir);
  }

  lemma {:induction false} MkdirAllFromLaw(o: Layers, p: Components, i: nat, mode: int, stale: set<Components>)
    requires Inv(o) && Clean(p) && i <= |p| && MkdirAllFrom(o, p, i, mode, stale).1.Done?
    requires Shown(o, p[..i]) == Some(Dir)
    ensures var o1 := MkdirAllFrom(o, p, i, mode, stale).0;
      && Inv(o1) && o1.base == o.base
      && (forall q :: Shown(o1, q) == if q <= p && |q| > i then Some(Dir) else Shown(o, q))
      && (forall c :: !(c <= p) ==> (c in o1.whiteouts <==> c in o.whiteouts))
    decreases |p| - i
  {
    if i < |p| {
      var x := p[..i + 1];
      assert Up(x) == p[..i];
      EnsureDirLaw(o, x, mode, stale);
      var o1 := EnsureDir(o, x, mode, stale).0;
      MkdirAllFromLaw(o1, p, i + 1, mode, stale);
      forall q | q <= p && |q| == i + 1
        ensures q == x
      {
      }
    }
  }

  // A successful MkdirAll shows the directories of the path and changes nothing else.
  lemma MkdirAllLawful(o: Layers, p: Components, mode: int, stale: set<Components>)
    requires Inv(o) && Clean(p) && MkdirAll(o, p, mode, stale).1.Done?
    ensures var o1 := MkdirAll(o, p, mode, stale).0;
      && Inv(o1) && o1.base == o.base
      && (forall q :: Shown(o1, q) == if q <= p then Some(Dir) else Shown(o, q))
      && (forall c :: !(c <= p) ==> (c in o1.whiteouts <==> c in o.whiteouts))
  {
    ShownRoot(o);
    assert p[..0] == [];
    MkdirAllFromLaw(o, p, 0, mode, stale);
    forall q | q <= p && |q| == 0
      ensures q == []
    {
    }
  }

  lemma ShownRoot(o: Layers)
    requires Inv(o)
    ensures Shown(o, []) == Some(Dir)
  {
    ViewExists(o.delta, []);
  }

  // Mkdir succeeds exactly when the delta has the parent and nothing is shown, and then
  // shows one new directory.
  lemma MkdirLawful(o: Layers, p: Components, mode: int)
    requires Inv(o) && Clean(p) && p != []
    ensures Mkdir(o, p, mode).1.Done? <==>
      !NS.NameTooLong(p) && View(o.delta, Up(p)) == Some(Dir) && Shown(o, p).None?
    ensures Mkdir(o, p, mode).1.Done? ==>
      var o1 := Mkdir(o, p, mode).0;
      && Inv(o1) && o1.base == o.base
      && forall q :: Shown(o1, q) == if q == p then Some(Dir) else Shown(o, q)
  {
    UpIsParent(p);
    var o1 := RemoveWhiteout(o, p);
    PlainView.MkdirLaw(o.delta, p, mode);
    LookupView(o.delta, p);
    ViewExists(o.delta, p);
    if View(o.delta, Up(p)) == Some(Dir) {
      if IsWhiteout(o.whiteouts, Up(p)) {
        NothingUnderWhiteout(o, Up(p));
      }
      UncoverLaw(o, p);
      LookupPathShown(o, p);
      LookupPathShown(o1, p);
      if IsWhiteout(o.whiteouts, p) {
        NothingUnderWhiteout(o, p);
      }
      if Mkdir(o, p, mode).1.Done? {
        MkdirGains(o1, p, mode);
      }
    }
  }

  // ---- WriteFile ----

  lemma ApartWhiteouts(whiteouts: set<Components>, p: Components, x: Components)
    requires !(p <= x)
    ensures IsWhiteout(whiteouts - {p}, x) == IsWhiteout(whiteouts, x)
  {
    WhiteoutExists(whiteouts, x);
    WhiteoutExists(whiteouts - {p}, x);
  }

  // Removing the whiteout of p first or last makes no difference to work above p.
  lemma {:induction false} MkdirAllCommutes(o: Layers, p: Components, x: Components, i: nat, stale: set<Components>)
    requires !(p <= x) && i <= |x|
    ensures var (o1, r) := MkdirAllFrom(o, x, i, 0x1ed, stale);
      MkdirAllFrom(RemoveWhiteout(o, p), x, i, 0x1ed, stale) == (RemoveWhiteout(o1, p), r)
    decreases |x| - i
  {
    if i < |x| {
      var current := x[..i + 1];
      EnsureDirCommutes(o, p, current, stale);
      MkdirAllCommutes(EnsureDir(o, current, 0x1ed, stale).0, p, x, i + 1, stale);
    }
  }

  lemma EnsureDirCommutes(o: Layers, p: Components, x: Components, stale: set<Components>)
    requires !(p <= x)
    ensures var (o1, r) := EnsureDir(o, x, 0x1ed, stale);
      EnsureDir(RemoveWhiteout(o, p), x, 0x1ed, stale) == (RemoveWhiteout(o1, p), r)
  {
    assert (o.whiteouts - {p}) - {x} == (o.whiteouts - {x}) - {p};
    ApartWhiteouts(o.whiteouts - {x}, p, x);
  }

  lemma OpenParentCommutes(o: Layers, p: Components, stale: set<Components>)
    requires Clean(p) && p != []
    ensures var (o1, r) := OpenParent(o, p, stale);
      OpenParent(RemoveWhiteout(o, p), p, stale) == (RemoveWhiteout(o1, p), r)
  {
    UpIsParent(p);
    ApartWhiteouts(o.whiteouts, p, Up(p));
    MkdirAllCommutes(o, p, Up(p), 0, stale);
  }

  lemma OpenParentLaw(o: Layers, p: Components, stale: set<Components>)
    requires Inv(o) && Clean(p) && p != [] && OpenParent(o, p, stale).1.Done?
    ensures var o1 := OpenParent(o, p, stale).0;
      && Inv(o1) && o1.base == o.base
      && (forall q :: Shown(o1, q) == if q <= Up(p) then Some(Dir) else Shown(o, q))
      && (forall c :: !(c <= Up(p)) ==> (c in o1.whiteouts <==> c in o.whiteouts))
  {
    UpIsParent(p);
    ShownRoot(o);
    LookupPathShown(o, Up(p));
    if LookupPath(o, Up(p)).Err? {
      MkdirAllLawful(o, Up(p), 0x1ed, stale);
    } else {
      forall q | q <= Up(p)
        ensures Shown(o, q) == Some(Dir)
      {
        if q != Up(p) {
          ShownPrefix(o, q, Up(p));
        }
      }
    }
  }

  // Writing p would hide base entries that are still shown below it.
  ghost predicate HidesEntries(o: Layers, p: Components) {
    p in o.base && !ChildrenCovered(o, p)
  }

  lemma DeltaWriteGains(s: State, p: Components, data: Bytes, mode: int)
    requires Plain(s) && Clean(p) && p != [] && NS.WriteFile(s, p, data, mode).1.Done?
    ensures var d := NS.WriteFile(s, p, data, mode).0;
      Plain(d) && DeltaGains(s, d, p, File(data, AttrAfter(s, p, mode)))
  {
    WriteFileLaw(s, p, data, mode);
  }

  // A successful WriteFile shows the data at p and directories above it, and leaves every
  // other path as it was; the overlay stays closed exactly when p is not a base directory
  // with entries still shown.
  lemma WriteFileLawful(o: Layers, p: Components, data: Bytes, mode: int, stale: set<Components>)
    requires Inv(o) && Clean(p) && p != [] && WriteFile(o, p, data, mode, stale).1.Done?
    ensures var o1 := WriteFile(o, p, data, mode, stale).0;
      && o1.base == o.base
      && (exists attr :: Shown(o1, p) == Some(File(data, attr)))
      && (forall q :: q != p ==> Shown(o1, q) == (if q <= p then Some(Dir) else Shown(o, q)))
      && (Inv(o1) <==> !HidesEntries(o, p))
  {
    UpIsParent(p);
    OpenParentCommutes(o, p, stale);
    OpenParentLaw(o, p, stale);
    var parentOpen := OpenParent(o, p, stale).0;
    UncoverLaw(parentOpen, p);
    var ready := RemoveWhiteout(parentOpen, p);
    DeltaWriteGains(ready.delta, p, data, mode);
    var node := File(data, AttrAfter(ready.delta, p, mode));
    forall q | q <= p && q != p
      ensures Shown(ready, q) == Some(Dir)
    {
      assert q <= Up(p);
    }
    GainLaw(ready, NS.WriteFile(ready.delta, p, data, mode).0, p, node);
    SameChildren(o, ready, p);
  }

  lemma SameChildren(o: Layers, o1: Layers, p: Components)
    requires o1.base == o.base && p != []
    requires forall c :: !(c <= p) ==> (c in o1.whiteouts <==> c in o.whiteouts)
    ensures ChildrenCovered(o1, p) <==> ChildrenCovered(o, p)
  {
    forall c | c != [] && Up(c) == p
      ensures !(c <= p)
    {
    }
  }

  // ---- Removing ----

  // Once the delta has lost p, covering what the base has at p takes p away and nothing else.
  lemma CoverLaw(o: Layers, d: State, p: Components)
    requires Inv(o) && p != [] && Plain(d) && Shown(o, p).Some?
    requires forall q :: View(d, q) == if q == p then None else View(o.delta, q)
    requires p in o.base ==> ChildrenCovered(o, p)
    requires forall q :: p <= q && q != p ==> Shown(o, q).None?
    ensures var o1 := Cover(o.(delta := d), p);
      && Inv(o1) && o1.base == o.base
      && forall q :: Shown(o1, q) == if q == p then None else Shown(o, q)
  {
    var o1 := Cover(o.(delta := d), p);
    forall q
      ensures Shown(o1, q) == if q == p then None else Shown(o, q)
    {
      CoverShown(o, d, p, q);
    }
    CoverClosed(o, d, p);
  }

  lemma CoverShown(o: Layers, d: State, p: Components, q: Components)
    requires p != [] && Shown(o, p).Some?
    requires View(d, q) == if q == p then None else View(o.delta, q)
    requires p <= q && q != p ==> Shown(o, q).None?
    ensures Shown(Cover(o.(delta := d), p), q) == if q == p then None else Shown(o, q)
  {
    WhiteoutExists(o.whiteouts, q);
    WhiteoutExists(o.whiteouts + {p}, q);
  }

  lemma CoverClosed(o: Layers, d: State, p: Components)
    requires Closed(o) && p != [] && (p in o.base ==> ChildrenCovered(o, p))
    requires forall q :: View(d, q) == if q == p then None else View(o.delta, q)
    ensures Closed(Cover(o.(delta := d), p))
  {
    var o1 := Cover(o.(delta := d), p);
    forall q
      ensures ChildrenCovered(o, q) ==> ChildrenCovered(o1, q)
    {
    }
    forall q
      ensures FileInDelta(o1, q) ==> FileInDelta(o, q)
    {
    }
  }

  lemma NotBlocked(o: Layers, p: Components)
    requires Inv(o) && Shown(o, p).Some?
    ensures !Blocked(o.delta, p)
  {
    if Blocked(o.delta, p) {
      BlockedNotShown(o, p);
    }
  }

  lemma NothingShownBelow(o: Layers, p: Components, c: Components)
    requires Inv(o) && p <= c && Shown(o, c).Some? && c != p
    ensures Shown(o, p) == Some(Dir) && exists n :: Shown(o, p + [n]).Some?
  {
    ShownPrefix(o, p, c);
    var n := c[|p|];
    assert p + [n] <= c;
    if p + [n] != c {
      ShownPrefix(o, p + [n], c);
    }
  }

  // Unlink succeeds exactly on a shown file and takes it away, nothing else.
  lemma UnlinkLawful(o: Layers, p: Components)
    requires Inv(o) && Clean(p) && p != []
    ensures Unlink(o, p).1.Done? <==> Shown(o, p).Some? && Shown(o, p).value.File?
    ensures Unlink(o, p).1.Done? ==>
      var o1 := Unlink(o, p).0;
      && Inv(o1) && o1.base == o.base
      && forall q :: Shown(o1, q) == if q == p then None else Shown(o, q)
  {
    LookupPathShown(o, p);
    if Shown(o, p).Some? && Shown(o, p).value.File? {
      NotBlocked(o, p);
      UnlinkLaw(o.delta, p);
      forall q | p <= q && q != p
        ensures Shown(o, q).None?
      {
        if Shown(o, q).Some? {
          NothingShownBelow(o, p, q);
        }
      }
      if p in o.base && !FileInDelta(o, p) {
        FileHasNoChildren(o, p);
      }
      CoverLaw(o, NS.Unlink(o.delta, p).0, p);
    }
  }

  lemma FileHasNoChildren(o: Layers, p: Components)
    requires BaseValid(o.base) && p in o.base && o.base[p].File?
    ensures ChildrenCovered(o, p)
  {
    forall c | c in o.base && c != []
      ensures Up(c) != p
    {
      assert BasePathValid(o.base, c);
    }
  }

  lemma DeltaLists(d: State, p: Components)
    requires Plain(d) && (View(d, p).Some? ==> View(d, p).value.Dir?)
    ensures (Walk(d, ROOT, p).Some? ==> IsEmptyDir(d, Walk(d, ROOT, p).value)) <==>
      forall n :: View(d, p + [n]).None?
  {
    ViewExists(d, p);
    if Walk(d, ROOT, p).Some? {
      EmptyView(d, p);
    } else {
      forall n
        ensures View(d, p + [n]).None?
      {
        if View(d, p + [n]).Some? {
          ViewParent(d, p, p + [n]);
        }
      }
    }
  }

  lemma ShownChild(o: Layers, p: Components, n: string)
    requires Inv(o)
    ensures Shown(o, p + [n]).Some? <==>
      View(o.delta, p + [n]).Some? || (p + [n] in o.base && !IsWhiteout(o.whiteouts, p + [n]))
  {
    if View(o.delta, p + [n]).Some? && IsWhiteout(o.whiteouts, p + [n]) {
      NothingUnderWhiteout(o, p + [n]);
    }
  }

  lemma BaseLists(o: Layers, p: Components)
    ensures (forall c :: c in o.base && c != [] && Up(c) == p ==> IsWhiteout(o.whiteouts, c)) <==>
      forall n :: p + [n] in o.base ==> IsWhiteout(o.whiteouts, p + [n])
  {
    forall n
      ensures p + [n] != [] && Up(p + [n]) == p
    {
    }
    forall c | c in o.base && c != [] && Up(c) == p
      ensures c == p + [c[|c| - 1]]
    {
    }
  }

  lemma ListsNothingShown(o: Layers, p: Components)
    requires Inv(o) && Shown(o, p) == Some(Dir)
    ensures ListsNothing(o, p) <==> forall n :: Shown(o, p + [n]).None?
  {
    DeltaLists(o.delta, p);
    BaseLists(o, p);
    forall n
      ensures Shown(o, p + [n]).Some? <==>
        View(o.delta, p + [n]).Some? || (p + [n] in o.base && !IsWhiteout(o.whiteouts, p + [n]))
    {
      ShownChild(o, p, n);
    }
  }

  // Rmdir succeeds exactly on a shown directory with nothing shown in it, and takes it away,
  // nothing else.
  lemma RmdirLawful(o: Layers, p: Components)
    requires Inv(o) && Clean(p) && p != []
    ensures Rmdir(o, p).1.Done? <==> Shown(o, p) == Some(Dir) && forall n :: Shown(o, p + [n]).None?
    ensures Rmdir(o, p).1.Done? ==>
      var o1 := Rmdir(o, p).0;
      && Inv(o1) && o1.base == o.base
      && forall q :: Shown(o1, q) == if q == p then None else Shown(o, q)
  {
    LookupPathShown(o, p);
    if Shown(o, p) == Some(Dir) {
      ListsNothingShown(o, p);
      if ListsNothing(o, p) {
        NotBlocked(o, p);
        RmdirLaw(o.delta, p);
        RmdirDelta(o, p);
        forall q | p <= q && q != p
          ensures Shown(o, q).None?
        {
          if Shown(o, q).Some? {
            NothingShownBelow(o, p, q);
          }
        }
        forall c | p in o.base && c in o.base && c != [] && Up(c) == p
          ensures c in o.whiteouts
        {
          CoveredBelow(o, c);
        }
        CoverLaw(o, NS.Rmdir(o.delta, p).0, p);
      }
    }
  }

  // The delta loses p if it had it.
  lemma RmdirDelta(o: Layers, p: Components)
    requires Inv(o) && Clean(p) && p != [] && Shown(o, p) == Some(Dir) && ListsNothing(o, p)
    requires !Blocked(o.delta, p)
    ensures var (d, r) := NS.Rmdir(o.delta, p);
      && (r.Done? || r == NS.Failed(ENOENT))
      && forall q :: View(d, q) == if q == p then None else View(o.delta, q)
  {
    RmdirLaw(o.delta, p);
    ViewExists(o.delta, p);
    if Walk(o.delta, ROOT, p).Some? {
      EmptyView(o.delta, p);
    }
  }

  // ---- Copy-up ----

  // One directory copied up.
  lemma CopyDirLaw(o: Layers, x: Components, parent: int)
    requires Inv(o) && Clean(x) && x != [] && Shown(o, x) == Some(Dir) && Walk(o.delta, ROOT, x).None?
    requires Walk(o.delta, ROOT, Up(x)) == Some(parent) && IsDir(o.delta, parent)
    ensures var d := Create(o.delta, Slot(parent, NameOf(x)), DIR, NewAttr(0x1ed), 0, 0, None);
      && Inv(o.(delta := d))
      && View(d, x) == Some(Dir)
      && (forall q :: q != x ==> View(d, q) == View(o.delta, q))
      && (forall q :: Shown(o.(delta := d), q) == Shown(o, q))
  {
    UpIsParent(x);
    var k := Slot(parent, NameOf(x));
    ViewOfSlot(o.delta, x, parent);
    CreatePlain(o.delta, k, DIR, NewAttr(0x1ed), 0);
    var d := Create(o.delta, k, DIR, NewAttr(0x1ed), 0, 0, None);
    forall q
      ensures View(d, q) == if q == x then Some(Dir) else View(o.delta, q)
    {
      CreateView(o.delta, Up(x), k, DIR, NewAttr(0x1ed), 0, q);
    }
    ViewExists(o.delta, Up(x));
    forall q | q <= x && q != x
      ensures View(o.delta, q) == Some(Dir) && Shown(o, q) == Some(Dir)
    {
      ShownPrefix(o, q, x);
      if q != Up(x) {
        assert q <= Up(x);
        ViewParent(o.delta, q, Up(x));
      }
    }
    GainLaw(o, d, x, Dir);
  }

  lemma {:induction false} EnsureParentsLaw(o: Layers, p: Components, i: nat)
    requires Inv(o) && Clean(p) && i < |p| && Shown(o, p).Some? && View(o.delta, p[..i]) == Some(Dir)
    ensures var (o1, r) := EnsureParentsFrom(o, p, i);
      && r.Done? && Inv(o1) && o1.base == o.base
      && View(o1.delta, Up(p)) == Some(Dir) && View(o1.delta, p) == View(o.delta, p)
      && forall q :: Shown(o1, q) == Shown(o, q)
    decreases |p| - i
  {
    if i + 1 == |p| {
      assert p[..i] == Up(p);
    } else {
      var x := p[..i + 1];
      assert Up(x) == p[..i] && x <= p;
      ShownPrefix(o, x, p);
      assert o.whiteouts - {x} == o.whiteouts;
      ViewExists(o.delta, Up(x));
      ViewExists(o.delta, x);
      if Walk(o.delta, ROOT, x).Some? {
        EnsureParentsLaw(o, p, i + 1);
      } else {
        var parent := Walk(o.delta, ROOT, Up(x)).value;
        CopyDirLaw(o, x, parent);
        var d := Create(o.delta, Slot(parent, NameOf(x)), DIR, NewAttr(0x1ed), 0, 0, None);
        EnsureParentsLaw(o.(delta := d), p, i + 1);
      }
    }
  }

  // Copying a shown file up succeeds, changes nothing that is shown, contents and attributes
  // included, and leaves the file in the delta.
  lemma CopyUpLawful(o: Layers, p: Components)
    requires Inv(o) && Clean(p) && p != [] && Shown(o, p).Some? && Shown(o, p).value.File?
    ensures var (o1, r) := CopyUp(o, p);
      && r.Done? && Inv(o1) && o1.base == o.base
      && View(o1.delta, p) == Shown(o, p)
      && forall q :: Shown(o1, q) == Shown(o, q)
  {
    ViewExists(o.delta, p);
    if Walk(o.delta, ROOT, p).None? {
      ParentsThenCopy(o, p);
      assert CopyUp(o, p) == PlaceCopy(EnsureParentsFrom(o, p, 0).0, p, o.base[p]);
    } else {
      assert CopyUp(o, p) == (o, NS.Done);
    }
  }

  lemma ParentsThenCopy(o: Layers, p: Components)
    requires Inv(o) && Clean(p) && p != [] && p in o.base && o.base[p].File?
    requires Shown(o, p) == Some(o.base[p]) && View(o.delta, p).None?
    ensures var (o1, r) := EnsureParentsFrom(o, p, 0); r.Done?
    ensures var (o2, r) := PlaceCopy(EnsureParentsFrom(o, p, 0).0, p, o.base[p]);
      && r.Done? && Inv(o2) && o2.base == o.base && View(o2.delta, p) == Shown(o, p)
      && forall q :: Shown(o2, q) == Shown(o, q)
  {
    ViewExists(o.delta, []);
    assert p[..0] == [];
    EnsureParentsLaw(o, p, 0);
    PlaceCopyLaw(EnsureParentsFrom(o, p, 0).0, p);
  }

  lemma PlaceCopyLaw(o: Layers, p: Components)
    requires Inv(o) && Clean(p) && p != [] && p in o.base && o.base[p].File? && Shown(o, p) == Some(o.base[p])
    requires View(o.delta, Up(p)) == Some(Dir) && View(o.delta, p).None?
    ensures var (o1, r) := PlaceCopy(o, p, o.base[p]);
      && r.Done? && Inv(o1) && o1.base == o.base && View(o1.delta, p) == Some(o.base[p])
      && forall q :: Shown(o1, q) == Shown(o, q)
  {
    UpIsParent(p);
    ViewExists(o.delta, Up(p));
    ViewExists(o.delta, p);
    var file, k := o.base[p], Slot(Walk(o.delta, ROOT, Up(p)).value, NameOf(p));
    ViewOfSlot(o.delta, p, k.parent);
    StoreNewLaw(o.delta, p, file.data, file.attr, k);
    var d := PlaceCopy(o, p, file).0.delta;
    forall q | q <= p && q != p
      ensures View(o.delta, q) == Some(Dir) && Shown(o, q) == Some(Dir)
    {
      ShownPrefix(o, q, p);
      if q != Up(p) {
        assert q <= Up(p);
        ViewParent(o.delta, q, Up(p));
      }
    }
    FileHasNoChildren(o, p);
    GainLaw(o, d, p, file);
  }

  // ---- Where the closure is lost ----

  // Writing over a base directory with entries still shown makes every base file below it
  // unreadable.
  lemma WriteHidesFiles(o: Layers, p: Components, data: Bytes, mode: int, stale: set<Components>, q: Components)
    requires Inv(o) && Clean(p) && p != [] && WriteFile(o, p, data, mode, stale).1.Done?
    requires Clean(q) && p <= q && p != q && Shown(o, q).Some?
    ensures var o1 := WriteFile(o, p, data, mode, stale).0;
      ReadFile(o1, q) == Err(ENOTDIR)
  {
    UpIsParent(p);
    OpenParentCommutes(o, p, stale);
    OpenParentLaw(o, p, stale);
    var parentOpen := OpenParent(o, p, stale).0;
    UncoverLaw(parentOpen, p);
    var ready := RemoveWhiteout(parentOpen, p);
    var o1 := WriteFile(o, p, data, mode, stale).0;
    DeltaWriteGains(ready.delta, p, data, mode);
    assert Shown(ready, q) == Shown(o, q);
    FileBlocks(o1.delta, p, q);
    ReadPathLaw(o1.delta, q);
  }

  lemma FileBlocks(d: State, p: Components, q: Components)
    requires Plain(d) && p != [] && p <= q && p != q && View(d, p).Some? && View(d, p).value.File?
    ensures Blocked(d, q) && View(d, q).None?
  {
    ViewExists(d, p);
    assert q[..|p|] == p;
    WalkLive(d, ROOT, p);
    assert PlainInode(d, Walk(d, ROOT, p).value);
    assert BlockedAt(d, q, |p| - 1);
    if View(d, q).Some? {
      ViewParent(d, p, q);
    }
  }

  // ---- Write and read ----

  lemma {:induction false} MkdirAllMeetsNoFile(o: Layers, p: Components, i: nat, mode: int, stale: set<Components>, q: Components)
    requires Inv(o) && Clean(p) && i <= |p| && MkdirAllFrom(o, p, i, mode, stale).1.Done?
    requires Shown(o, p[..i]) == Some(Dir) && q <= p && |q| > i
    ensures Shown(o, q).None? || Shown(o, q) == Some(Dir)
    decreases |p| - i
  {
    var x := p[..i + 1];
    assert Up(x) == p[..i];
    EnsureDirLaw(o, x, mode, stale);
    if q != x {
      MkdirAllMeetsNoFile(EnsureDir(o, x, mode, stale).0, p, i + 1, mode, stale, q);
    }
  }

  lemma ParentMeetsNoFile(o: Layers, p: Components, stale: set<Components>, q: Components)
    requires Inv(o) && Clean(p) && p != [] && OpenParent(o, p, stale).1.Done? && q <= Up(p)
    ensures Shown(o, q).None? || Shown(o, q) == Some(Dir)
  {
    UpIsParent(p);
    ShownRoot(o);
    LookupPathShown(o, Up(p));
    if q != [] {
      if LookupPath(o, Up(p)).Err? {
        assert Up(p)[..0] == [];
        MkdirAllMeetsNoFile(o, Up(p), 0, 0x1ed, stale, q);
      } else if q != Up(p) {
        ShownPrefix(o, q, Up(p));
      }
    }
  }

  // The overlay and its delta after a successful write, without regard to the closure.
  lemma WriteParts(o: Layers, p: Components, data: Bytes, mode: int, stale: set<Components>) returns (ready: Layers)
    requires Inv(o) && Clean(p) && p != [] && WriteFile(o, p, data, mode, stale).1.Done?
    ensures Inv(ready) && OpenParent(o, p, stale).1.Done?
    ensures var o1 := WriteFile(o, p, data, mode, stale).0;
      && o1.base == ready.base == o.base && o1.whiteouts == ready.whiteouts && Plain(o1.delta)
      && (exists attr :: DeltaGains(ready.delta, o1.delta, p, File(data, attr)))
      && (forall q :: !(q <= p) && !(p <= q) ==> Shown(ready, q) == Shown(o, q))
  {
    UpIsParent(p);
    OpenParentCommutes(o, p, stale);
    OpenParentLaw(o, p, stale);
    UncoverLaw(OpenParent(o, p, stale).0, p);
    ready := RemoveWhiteout(OpenParent(o, p, stale).0, p);
    DeltaWriteGains(ready.delta, p, data, mode);
  }

  // Off the written path, a read that came from the delta or the base still does.
  lemma ReadElsewhere(o: Layers, d: State, p: Components, node: Node, q: Components, data: Bytes)
    requires Inv(o) && Plain(d) && Clean(q) && DeltaGains(o.delta, d, p, node) && !(q <= p) && !(p <= q)
    requires Shown(o, q).Some? && Shown(o, q).value.File? && Shown(o, q).value.data == data
    ensures ReadFile(o.(delta := d), q) == Ok(data)
  {
    ReadPathLaw(d, q);
    if Blocked(d, q) {
      var i: nat :| BlockedAt(d, q, i);
      var f := q[..i + 1];
      ViewExists(d, f);
      WalkLive(d, ROOT, f);
      assert PlainInode(d, Walk(d, ROOT, f).value);
      assert FileInDelta(o, f);
      FileBlocks(o.delta, f, q);
      BlockedNotShown(o, q);
    }
  }

  // A successful WriteFile makes p read as the data, and leaves every other readable file as it
  // was exactly when that file is not below p.
  lemma WriteThenRead(o: Layers, p: Components, data: Bytes, mode: int, stale: set<Components>, q: Components)
    requires Inv(o) && Clean(p) && p != [] && WriteFile(o, p, data, mode, stale).1.Done?
    requires Clean(q) && q != p && ReadFile(o, q).Ok?
    ensures var o1 := WriteFile(o, p, data, mode, stale).0;
      && ReadFile(o1, p) == Ok(data)
      && (ReadFile(o1, q) == ReadFile(o, q) <==> !(p <= q))
  {
    var o1 := WriteFile(o, p, data, mode, stale).0;
    WriteFileLawful(o, p, data, mode, stale);
    var ready := WriteParts(o, p, data, mode, stale);
    ReadPathLaw(o1.delta, p);
    var was := ReadFile(o, q).value;
    ReadFileShown(o, q, was);
    if q <= p {
      ParentMeetsNoFile(o, p, stale, q);
    } else if p <= q {
      WriteHidesFiles(o, p, data, mode, stale, q);
    } else {
      var attr :| DeltaGains(ready.delta, o1.delta, p, File(data, attr));
      ReadElsewhere(ready, o1.delta, p, File(data, attr), q, was);
    }
  }
}
