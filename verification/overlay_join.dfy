// LookupPath as the overlay runs it, through the inode map one component at a time, against the
// lookup by path.
module OverlayJoin {
  import opened Common
  import opened Paths
  import opened Tables
  import opened Resolution
  import NS = Namespace
  import opened PlainView
  import opened Overlay
  import opened OverlayLaws
  import I = OverlayInodes

  // The layers, the inode maps, and the inode number the base has for each of its paths.
  datatype Mount = Mount(o: Layers, n: I.Numbers, ino: map<Components, int>)

  // ---- The lookup ----

  // base.Lookup of a name in a base inode.
  ghost function BaseLookup(m: Mount, b: int, name: string): Option<int> {
    if exists q :: q in m.ino && m.ino[q] == b && q + [name] in m.ino then
      var q :| q in m.ino && m.ino[q] == b && q + [name] in m.ino;
      Some(m.ino[q + [name]])
    else None
  }

  // The delta directory of a parent record: the inode it names, or what the delta has at its path.
  ghost function DeltaParent(m: Mount, info: I.Info): Option<int> {
    if info.key.layer == I.LayerDelta then Some(info.key.ino) else Walk(m.o.delta, ROOT, info.path)
  }

  // The base directory of a parent record, likewise.
  ghost function BaseParent(m: Mount, info: I.Info): Option<int> {
    if info.key.layer == I.LayerBase then Some(info.key.ino)
    else if info.path in m.ino then Some(m.ino[info.path])
    else None
  }

  // Lookup
  ghost function LookupChild(m: Mount, parent: int, name: string): (I.Numbers, Result<int>) {
    if parent !in m.n.inodeMap then (m.n, Err(ENOENT)) else
      var info := m.n.inodeMap[parent];
      var p := info.path + [name];
      if IsWhiteout(m.o.whiteouts, p) then (m.n, Err(ENOENT)) else
        var dir := DeltaParent(m, info);
        if dir.Some? && Step(m.o.delta, dir.value, name).Some? then
          var child := Step(m.o.delta, dir.value, name).value;
          if child !in m.o.delta.inodes then (m.n, Err(ENOENT))
          else (I.Lookup(m.n, I.InDelta(child), p).0, Ok(I.Lookup(m.n, I.InDelta(child), p).1))
        else
          var baseDir := BaseParent(m, info);
          if baseDir.None? || BaseLookup(m, baseDir.value, name).None? then (m.n, Err(ENOENT))
          else
            var e := I.InBase(BaseLookup(m, baseDir.value, name).value);
            (I.Lookup(m.n, e, p).0, Ok(I.Lookup(m.n, e, p).1))
  }

  // Stat; the answer is whether it is a directory.
  ghost function Stat(m: Mount, x: int): Result<bool> {
    if x !in m.n.inodeMap then Err(ENOENT) else
      var k := m.n.inodeMap[x].key;
      if k.layer == I.LayerDelta then
        if k.ino in m.o.delta.inodes then Ok(IsDir(m.o.delta, k.ino)) else Err(ENOENT)
      else if exists q :: q in m.ino && q in m.o.base && m.ino[q] == k.ino then
        var q :| q in m.ino && q in m.o.base && m.ino[q] == k.ino;
        Ok(m.o.base[q].Dir?)
      else Err(ENOENT)
  }

  ghost function LookupFrom(m: Mount, at: int, p: Components, i: nat): (I.Numbers, Result<int>)
    requires i <= |p|
    decreases |p| - i
  {
    if i == |p| then (m.n, Ok(at)) else
      var (n1, r) := LookupChild(m, at, p[i]);
      if r.Err? then (n1, r) else LookupFrom(m.(n := n1), r.value, p, i + 1)
  }

  // LookupPath
  ghost function LookupByInodes(m: Mount, p: Components): (I.Numbers, Result<bool>) {
    if p == [] then (m.n, Stat(m, ROOT))
    else if IsWhiteout(m.o.whiteouts, p) then (m.n, Err(ENOENT))
    else
      var (n1, r) := LookupFrom(m, ROOT, p, 0);
      if r.Err? then (n1, Err(r.errno)) else (n1, Stat(m.(n := n1), r.value))
  }

  // ---- The invariant ----

  // What the layers have at a path, whiteouts aside.
  ghost function EntryAt(m: Mount, p: Components): Option<I.Entry> {
    var at := Walk(m.o.delta, ROOT, p);
    if at.Some? then Some(I.InDelta(at.value))
    else if p in m.ino then Some(I.InBase(m.ino[p]))
    else None
  }

  // A base without hard links.
  ghost predicate BaseInos(m: Mount) {
    m.ino.Keys == m.o.base.Keys && forall p, q :: p in m.ino && q in m.ino && m.ino[p] == m.ino[q] ==> p == q
  }

  // A record names the inode at its path, or a delta inode that is gone; if the delta inode was
  // copied up, its origin is the base inode at the path.
  ghost predicate RecordFits(m: Mount, info: I.Info) {
    var k, p := info.key, info.path;
    if k.layer == I.LayerBase then p in m.ino && m.ino[p] == k.ino
    else
      && (k.ino in m.o.delta.inodes ==> Walk(m.o.delta, ROOT, p) == Some(k.ino))
      && (k.ino in m.n.origin ==> p in m.ino && m.ino[p] == m.n.origin[k.ino])
  }

  ghost predicate RecordsFit(m: Mount) {
    forall x :: x in m.n.inodeMap ==> RecordFits(m, m.n.inodeMap[x])
  }

  // Every number has a record, and that of a delta inode without origin is its own.
  ghost predicate NumbersRecorded(m: Mount) {
    && (forall k :: k in m.n.reverse ==> m.n.reverse[k] in m.n.inodeMap)
    && (forall k :: k in m.n.reverse && k.layer == I.LayerDelta && k.ino !in m.n.origin ==>
          m.n.inodeMap[m.n.reverse[k]].key == k)
  }

  ghost predicate OriginFits(m: Mount, p: Components) {
    var at := Walk(m.o.delta, ROOT, p);
    at.Some? && at.value in m.n.origin ==> p in m.ino && m.ino[p] == m.n.origin[at.value]
  }

  ghost predicate RootRecorded(m: Mount) {
    var k := I.Key(I.LayerDelta, ROOT);
    && ROOT !in m.n.origin && k in m.n.reverse && m.n.reverse[k] == ROOT
    && ROOT in m.n.inodeMap && m.n.inodeMap[ROOT] == I.Info(k, [])
  }

  ghost predicate Joined(m: Mount) {
    && Inv(m.o) && BaseInos(m) && I.Inv(m.n) && m.n.deltaNext == m.o.delta.nextIno
    && RecordsFit(m) && NumbersRecorded(m) && RootRecorded(m) && forall p :: OriginFits(m, p)
  }

  // The record of the base inode at p names a delta inode that is gone.
  ghost predicate Stale(m: Mount, p: Components) {
    && Walk(m.o.delta, ROOT, p).None? && p in m.ino
    && var k := I.Key(I.LayerBase, m.ino[p]);
    && k in m.n.reverse && m.n.reverse[k] in m.n.inodeMap
    && var r := m.n.inodeMap[m.n.reverse[k]].key;
    r.layer == I.LayerDelta && r.ino !in m.o.delta.inodes
  }

  // The number x is the one a lookup of p answers with now.
  ghost predicate Current(m: Mount, x: int, p: Components) {
    && x in m.n.inodeMap && m.n.inodeMap[x].path == p
    && var k := m.n.inodeMap[x].key;
    if Walk(m.o.delta, ROOT, p).Some? then k == I.Key(I.LayerDelta, Walk(m.o.delta, ROOT, p).value)
    else
      && p in m.ino
      && (if Stale(m, p) then k.layer == I.LayerDelta && k.ino !in m.o.delta.inodes else k == I.Key(I.LayerBase, m.ino[p]))
  }

  ghost predicate SameStale(m: Mount, m1: Mount) {
    forall q :: Stale(m1, q) <==> Stale(m, q)
  }

  // ---- One number handed out ----

  // A copied-up delta inode.
  lemma LookupCopied(m: Mount, p: Components, d: int)
    requires Joined(m) && Walk(m.o.delta, ROOT, p) == Some(d) && d in m.n.origin
    ensures var (n1, x) := I.Lookup(m.n, I.InDelta(d), p); var m1 := m.(n := n1);
      Joined(m1) && Current(m1, x, p) && SameStale(m, m1)
  {
    var (n1, x) := I.Lookup(m.n, I.InDelta(d), p);
    var m1 := m.(n := n1);
    assert OriginFits(m, p);
    DeltaIsOld(m, p);
    I.LookupKeeps(m.n, I.InDelta(d), p);
    SharersOfOrigin(m, p, d);
    CopiedRecords(m, p, d);
    CopiedStale(m, p, d);
    forall q
      ensures OriginFits(m1, q)
    {
      assert OriginFits(m, q);
    }
  }

  // Whoever has the number of the origin is that base inode or a copy of it.
  lemma SharersOfOrigin(m: Mount, p: Components, d: int)
    requires Joined(m) && d in m.n.origin
    ensures var x, b := I.Lookup(m.n, I.InDelta(d), p).1, I.Key(I.LayerBase, m.n.origin[d]);
      forall k :: k in m.n.reverse && m.n.reverse[k] == x ==> I.CanonicalKey(m.n, k) == b
  {
    var x, b := I.Lookup(m.n, I.InDelta(d), p).1, I.Key(I.LayerBase, m.n.origin[d]);
    forall k | k in m.n.reverse && m.n.reverse[k] == x
      ensures I.CanonicalKey(m.n, k) == b
    {
      assert b in m.n.reverse;
      assert I.CanonicalKey(m.n, b) == b;
    }
  }

  lemma CopiedRecords(m: Mount, p: Components, d: int)
    requires Joined(m) && Walk(m.o.delta, ROOT, p) == Some(d) && d in m.n.origin && d in m.o.delta.inodes && OriginFits(m, p)
    requires var x, b := I.Lookup(m.n, I.InDelta(d), p).1, I.Key(I.LayerBase, m.n.origin[d]);
      forall k :: k in m.n.reverse && m.n.reverse[k] == x ==> I.CanonicalKey(m.n, k) == b
    ensures var m1 := m.(n := I.Lookup(m.n, I.InDelta(d), p).0); RecordsFit(m1) && NumbersRecorded(m1) && RootRecorded(m1)
  {
    var (n1, x) := I.Lookup(m.n, I.InDelta(d), p);
    var m1 := m.(n := n1);
    forall y | y in n1.inodeMap
      ensures RecordFits(m1, n1.inodeMap[y])
    {
      assert y != x ==> RecordFits(m, m.n.inodeMap[y]);
    }
    assert x != ROOT by {
      assert I.CanonicalKey(m.n, I.Key(I.LayerDelta, ROOT)).layer == I.LayerDelta;
      NextIsNew(m);
    }
  }

  lemma CopiedStale(m: Mount, p: Components, d: int)
    requires Joined(m) && Walk(m.o.delta, ROOT, p) == Some(d) && d in m.n.origin && d in m.o.delta.inodes && OriginFits(m, p)
    requires var x, b := I.Lookup(m.n, I.InDelta(d), p).1, I.Key(I.LayerBase, m.n.origin[d]);
      forall k :: k in m.n.reverse && m.n.reverse[k] == x ==> I.CanonicalKey(m.n, k) == b
    ensures SameStale(m, m.(n := I.Lookup(m.n, I.InDelta(d), p).0))
  {
    var m1 := m.(n := I.Lookup(m.n, I.InDelta(d), p).0);
    forall q
      ensures Stale(m1, q) <==> Stale(m, q)
    {
      if Walk(m.o.delta, ROOT, q).None? && q in m.ino {
        var k := I.Key(I.LayerBase, m.ino[q]);
        assert k != I.Key(I.LayerBase, m.n.origin[d]);
        assert I.CanonicalKey(m.n, k) == k;
        assert k in m.n.reverse <==> k in m1.n.reverse;
        if k in m.n.reverse {
          SameRecord(m, m1, k, I.Lookup(m.n, I.InDelta(d), p).1);
        }
      }
    }
  }

  lemma SameRecord(m: Mount, m1: Mount, k: I.Key, x: int)
    requires k in m.n.reverse && k in m1.n.reverse && m1.n.reverse[k] == m.n.reverse[k] != x
    requires forall y :: y != x ==> (y in m1.n.inodeMap <==> y in m.n.inodeMap)
    requires forall y :: y != x && y in m.n.inodeMap ==> m1.n.inodeMap[y] == m.n.inodeMap[y]
    ensures m.n.reverse[k] in m.n.inodeMap <==> m1.n.reverse[k] in m1.n.inodeMap
    ensures m.n.reverse[k] in m.n.inodeMap ==> m1.n.inodeMap[m1.n.reverse[k]] == m.n.inodeMap[m.n.reverse[k]]
  {
  }

  lemma DeltaIsOld(m: Mount, p: Components)
    requires Joined(m) && Walk(m.o.delta, ROOT, p).Some?
    ensures Walk(m.o.delta, ROOT, p).value in m.o.delta.inodes && Walk(m.o.delta, ROOT, p).value < m.n.deltaNext
  {
    WalkLive(m.o.delta, ROOT, p);
    assert InodeValid(m.o.delta, Walk(m.o.delta, ROOT, p).value);
  }

  // A delta inode without origin.
  lemma LookupMade(m: Mount, p: Components, d: int)
    requires Joined(m) && Walk(m.o.delta, ROOT, p) == Some(d) && d !in m.n.origin
    ensures var (n1, x) := I.Lookup(m.n, I.InDelta(d), p); var m1 := m.(n := n1);
      Joined(m1) && Current(m1, x, p) && SameStale(m, m1)
  {
    var (n1, x) := I.Lookup(m.n, I.InDelta(d), p);
    var m1 := m.(n := n1);
    DeltaIsOld(m, p);
    I.LookupKeeps(m.n, I.InDelta(d), p);
    if I.Key(I.LayerDelta, d) in m.n.reverse {
      assert RecordFits(m, m.n.inodeMap[x]);
      PathUnique(m.o.delta, m.n.inodeMap[x].path, p);
    } else {
      NewNumber(m, I.Key(I.LayerDelta, d), p);
    }
  }

  // A key without a number gets a new one, and nothing else changes.
  lemma NewNumber(m: Mount, k: I.Key, p: Components)
    requires Joined(m) && k !in m.n.reverse
    requires I.Inv(I.GetOrCreate(m.n, k, p).0) && RecordFits(m, I.Info(k, p))
    ensures var m1 := m.(n := I.GetOrCreate(m.n, k, p).0);
      && Joined(m1) && SameStale(m, m1)
      && m1.n.reverse[k] == m.n.next && m1.n.inodeMap[m.n.next] == I.Info(k, p)
  {
    var m1 := m.(n := I.GetOrCreate(m.n, k, p).0);
    NextIsNew(m);
    assert RecordsFit(m1) by {
      forall x | x in m1.n.inodeMap
        ensures RecordFits(m1, m1.n.inodeMap[x])
      {
        assert x != m.n.next ==> RecordFits(m, m.n.inodeMap[x]);
      }
    }
    NewNumberStale(m, k, p);
    forall q
      ensures OriginFits(m1, q)
    {
      assert OriginFits(m, q);
    }
  }

  lemma NextIsNew(m: Mount)
    requires Joined(m)
    ensures m.n.next !in m.n.inodeMap
  {
    forall x | x in m.n.inodeMap
      ensures x != m.n.next
    {
      assert m.n.inodeMap[x].key in m.n.reverse;
    }
  }

  lemma NewNumberStale(m: Mount, k: I.Key, p: Components)
    requires Joined(m) && k !in m.n.reverse && RecordFits(m, I.Info(k, p)) && m.n.next !in m.n.inodeMap
    ensures SameStale(m, m.(n := I.GetOrCreate(m.n, k, p).0))
  {
    var m1 := m.(n := I.GetOrCreate(m.n, k, p).0);
    forall q
      ensures Stale(m1, q) <==> Stale(m, q)
    {
    }
  }

  // A base inode whose path the delta does not have. Its record may still name a copy that is gone.
  lemma LookupBased(m: Mount, p: Components)
    requires Joined(m) && Walk(m.o.delta, ROOT, p).None? && p in m.ino
    ensures var (n1, x) := I.Lookup(m.n, I.InBase(m.ino[p]), p); var m1 := m.(n := n1);
      Joined(m1) && Current(m1, x, p) && SameStale(m, m1)
  {
    var k := I.Key(I.LayerBase, m.ino[p]);
    I.LookupKeeps(m.n, I.InBase(m.ino[p]), p);
    if k in m.n.reverse {
      RecordOfBase(m, p);
    } else {
      NewNumber(m, k, p);
    }
  }

  lemma RecordOfBase(m: Mount, p: Components)
    requires Joined(m) && Walk(m.o.delta, ROOT, p).None? && p in m.ino
    requires I.Key(I.LayerBase, m.ino[p]) in m.n.reverse
    ensures Current(m, m.n.reverse[I.Key(I.LayerBase, m.ino[p])], p)
  {
    var k := I.Key(I.LayerBase, m.ino[p]);
    var x := m.n.reverse[k];
    var info := m.n.inodeMap[x];
    assert RecordFits(m, info);
    assert info.key in m.n.reverse && m.n.reverse[info.key] == x;
    assert I.CanonicalKey(m.n, info.key) == I.CanonicalKey(m.n, k) == k;
  }

  lemma LookupEntry(m: Mount, p: Components)
    requires Joined(m) && EntryAt(m, p).Some?
    ensures var (n1, x) := I.Lookup(m.n, EntryAt(m, p).value, p); var m1 := m.(n := n1);
      Joined(m1) && Current(m1, x, p) && SameStale(m, m1)
  {
    var at := Walk(m.o.delta, ROOT, p);
    if at.None? {
      LookupBased(m, p);
    } else if at.value in m.n.origin {
      LookupCopied(m, p, at.value);
    } else {
      LookupMade(m, p, at.value);
    }
  }

  // ---- One component ----

  // From the current number of a directory, a component is looked up by path: in the delta first,
  // then in the base.
  lemma ChildLaw(m: Mount, parent: int, q: Components, name: string)
    requires Joined(m) && Current(m, parent, q)
    ensures var p := q + [name];
      LookupChild(m, parent, name) ==
        if IsWhiteout(m.o.whiteouts, p) || EntryAt(m, p).None? then (m.n, Err(ENOENT))
        else (I.Lookup(m.n, EntryAt(m, p).value, p).0, Ok(I.Lookup(m.n, EntryAt(m, p).value, p).1))
  {
    var p, info := q + [name], m.n.inodeMap[parent];
    DeltaChild(m, info, q, name);
    if EntryAt(m, p).None? || EntryAt(m, p).value.InBase? {
      BaseChild(m, info, q, name);
    }
  }

  lemma DeltaChild(m: Mount, info: I.Info, q: Components, name: string)
    requires Joined(m) && info.path == q
    requires var at, k := Walk(m.o.delta, ROOT, q), info.key;
      if at.Some? then k == I.Key(I.LayerDelta, at.value) else k.layer == I.LayerDelta ==> k.ino !in m.o.delta.inodes
    ensures var dir, at := DeltaParent(m, info), Walk(m.o.delta, ROOT, q + [name]);
      && (at.Some? <==> dir.Some? && Step(m.o.delta, dir.value, name).Some?)
      && (at.Some? ==> at == Step(m.o.delta, dir.value, name) && at.value in m.o.delta.inodes)
  {
    WalkSnoc(m.o.delta, ROOT, q, name);
    var dir := DeltaParent(m, info);
    if dir.Some? && Step(m.o.delta, dir.value, name).Some? {
      assert SlotValid(m.o.delta, Slot(dir.value, name));
    }
  }

  lemma BaseChild(m: Mount, info: I.Info, q: Components, name: string)
    requires Joined(m) && info.path == q && RecordFits(m, info)
    ensures var dir := BaseParent(m, info);
      if q + [name] in m.ino then dir.Some? && BaseLookup(m, dir.value, name) == Some(m.ino[q + [name]])
      else dir.None? || BaseLookup(m, dir.value, name).None?
  {
    if q + [name] in m.ino {
      assert BasePathValid(m.o.base, q + [name]);
      assert Up(q + [name]) == q;
    }
  }

  // ---- The whole path ----

  lemma {:induction false} EntryAbove(m: Mount, p: Components, q: Components)
    requires Joined(m) && EntryAt(m, p).Some? && q <= p
    ensures EntryAt(m, q).Some?
    decreases |p|
  {
    if q != p {
      EntryUp(m, p);
      assert q <= Up(p);
      EntryAbove(m, Up(p), q);
    }
  }

  lemma EntryUp(m: Mount, p: Components)
    requires BaseValid(m.o.base) && m.ino.Keys == m.o.base.Keys && p != [] && EntryAt(m, p).Some?
    ensures EntryAt(m, Up(p)).Some?
  {
    var up, name := Up(p), p[|p| - 1];
    assert p == up + [name];
    WalkSnoc(m.o.delta, ROOT, up, name);
    if p in m.ino {
      assert BasePathValid(m.o.base, p);
      assert up in m.ino;
    }
  }

  lemma {:induction false} LookupFromLaw(m: Mount, at: int, p: Components, i: nat)
    requires Joined(m) && i <= |p| && Current(m, at, p[..i]) && !IsWhiteout(m.o.whiteouts, p)
    ensures var (n1, r) := LookupFrom(m, at, p, i); var m1 := m.(n := n1);
      && Joined(m1) && SameStale(m, m1)
      && (if EntryAt(m, p).None? then r == Err(ENOENT) else r.Ok? && Current(m1, r.value, p))
    decreases |p| - i
  {
    if i == |p| {
      assert p[..i] == p;
    } else {
      var q, name := p[..i], p[i];
      var next := p[..i + 1];
      assert next == q + [name];
      ChildLaw(m, at, q, name);
      AboveNotWhiteout(m.o.whiteouts, p, next);
      if EntryAt(m, next).None? {
        if EntryAt(m, p).Some? {
          EntryAbove(m, p, next);
        }
      } else {
        LookupEntry(m, next);
        var (n1, x) := I.Lookup(m.n, EntryAt(m, next).value, next);
        LookupFromLaw(m.(n := n1), x, p, i + 1);
      }
    }
  }

  lemma AboveNotWhiteout(whiteouts: set<Components>, p: Components, q: Components)
    requires !IsWhiteout(whiteouts, p) && q <= p
    ensures !IsWhiteout(whiteouts, q)
  {
    WhiteoutExists(whiteouts, p);
    WhiteoutExists(whiteouts, q);
  }

  lemma StatCurrent(m: Mount, x: int, p: Components)
    requires Joined(m) && Current(m, x, p)
    ensures Stat(m, x) ==
      if Walk(m.o.delta, ROOT, p).Some? then Ok(IsDir(m.o.delta, Walk(m.o.delta, ROOT, p).value))
      else if Stale(m, p) then Err(ENOENT)
      else Ok(m.o.base[p].Dir?)
  {
    if Walk(m.o.delta, ROOT, p).Some? {
      WalkLive(m.o.delta, ROOT, p);
    }
  }

  // LookupPath through the inode map answers as the lookup by path does, except that a base entry
  // whose record names a delta inode that is gone is not found. No path becomes such, or ceases to
  // be, by a lookup.
  lemma LookupByInodesExactly(m: Mount, p: Components)
    requires Joined(m)
    ensures var (n1, r) := LookupByInodes(m, p); var m1 := m.(n := n1);
      && Joined(m1) && SameStale(m, m1)
      && r == if p != [] && !IsWhiteout(m.o.whiteouts, p) && Stale(m, p) then Err(ENOENT) else LookupPath(m.o, p)
  {
    assert InodeValid(m.o.delta, ROOT);
    if p == [] {
      StatCurrent(m, ROOT, []);
    } else if !IsWhiteout(m.o.whiteouts, p) {
      assert p[..0] == [];
      LookupFromLaw(m, ROOT, p, 0);
      var (n1, r) := LookupFrom(m, ROOT, p, 0);
      if r.Ok? {
        StatCurrent(m.(n := n1), r.value, p);
      }
    }
  }
}
